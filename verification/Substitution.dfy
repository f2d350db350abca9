/**
 Textual substitution of macro parameters (src/cmpl_control.c:3-47, 160-184): a counting scan, a copying
 scan, and one pass over the text per parameter.
 */
module Substitution {
  predicate OccursAt(what: string, s: string, i: nat)
    requires i < |s|
  {
    s[i] == '\\' && what <= s[i + 1..]
  }

  /** From left to right, every backslash followed by `what` is replaced. */
  function Substitute(what: string, with: string, s: string): string
    decreases |s|
  {
    if s == [] then []
    else if OccursAt(what, s, 0) then with + Substitute(what, with, s[1 + |what|..])
    else [s[0]] + Substitute(what, with, s[1..])
  }

  // ---- the two scans ------------------------------------------------------------------------

  /** The counting scan: the bytes of the result with its terminator. */
  method Count(what: string, with: string, src: string) returns (size: int)
    ensures size == |Substitute(what, with, src)| + 1
  {
    var i := 0;
    size := |src| + 1;
    while i < |src|
      invariant 0 <= i <= |src|
      invariant size - (|src| - i) + |Substitute(what, with, src[i..])| == |Substitute(what, with, src)| + 1
    {
      assert src[i..][1..] == src[i + 1..];
      if src[i] == '\\' && what <= src[i + 1..] {
        assert src[i..][1 + |what|..] == src[i + 1 + |what|..];
        size := size + |with| - (|what| + 1);
        i := i + 1 + |what|;
      } else {
        i := i + 1;
      }
    }
  }

  /** Both scans: the buffer of the counted size is filled exactly, the terminator last. */
  method SubstituteWord(what: string, with: string, src: string) returns (word: array<char>)
    ensures word[..] == Substitute(what, with, src) + ['\0']
  {
    hide Substitute;
    var size := Count(what, with, src);
    ghost var result := Substitute(what, with, src);
    word := new char[size];
    var i, at := 0, 0;
    while i < |src|
      invariant 0 <= i <= |src| && 0 <= at <= |result|
      invariant word[..at] == result[..at] && result[at..] == Substitute(what, with, src[i..])
    {
      Advance(what, with, src, i);
      if src[i] == '\\' && what <= src[i + 1..] {
        SplitFront(result, at, with, Substitute(what, with, src[i + 1 + |what|..]));
        Copy(word, at, with);
        i, at := i + 1 + |what|, at + |with|;
      } else {
        SplitFront(result, at, [src[i]], Substitute(what, with, src[i + 1..]));
        word[at] := src[i];
        i, at := i + 1, at + 1;
      }
    }
    NothingLeft(what, with, src);
    word[at] := '\0';
  }

  lemma NothingLeft(what: string, with: string, src: string)
    ensures Substitute(what, with, src[|src|..]) == []
  {
  }

  lemma Advance(what: string, with: string, src: string, i: nat)
    requires i < |src|
    ensures Substitute(what, with, src[i..]) ==
            if OccursAt(what, src, i) then with + Substitute(what, with, src[i + 1 + |what|..])
            else [src[i]] + Substitute(what, with, src[i + 1..])
  {
    assert src[i..][1..] == src[i + 1..];
    if OccursAt(what, src, i) { assert src[i..][1 + |what|..] == src[i + 1 + |what|..]; }
  }

  lemma SplitFront(result: string, at: nat, front: string, rest: string)
    requires at <= |result| && result[at..] == front + rest
    ensures at + |front| <= |result| && result[at + |front|..] == rest
    ensures result[..at + |front|] == result[..at] + front
  {
    assert result[at..][..|front|] == front && result[at..][|front|..] == rest;
  }

  method Copy(to: array<char>, at: nat, from: string)
    requires at + |from| <= to.Length
    modifies to
    ensures to[..at + |from|] == old(to[..at]) + from
  {
    for k := 0 to |from|
      invariant to[..at + k] == old(to[..at]) + from[..k]
    {
      to[at + k] := from[k];
    }
  }

  // ---- leftmost, non-overlapping ------------------------------------------------------------

  /** The text between the occurrences that are replaced. */
  function Pieces(what: string, s: string): (p: seq<string>)
    ensures p != []
    decreases |s|
  {
    if s == [] then [[]]
    else if OccursAt(what, s, 0) then [[]] + Pieces(what, s[1 + |what|..])
    else
      var p := Pieces(what, s[1..]);
      [[s[0]] + p[0]] + p[1..]
  }

  function Join(p: seq<string>, between: string): string
    requires p != []
  {
    if |p| == 1 then p[0] else p[0] + between + Join(p[1..], between)
  }

  /** The first occurrence in the text is right after its first `n` characters. */
  predicate FirstAt(what: string, s: string, n: nat) {
    n < |s| && OccursAt(what, s, n) && forall i: nat | i < n :: !OccursAt(what, s, i)
  }

  function Occurrence(what: string): string { ['\\'] + what }

  /** Each occurrence is the first one after the occurrence before it. */
  predicate Leftmost(what: string, p: seq<string>)
    requires p != []
  {
    if |p| == 1 then forall i: nat | i < |p[0]| :: !OccursAt(what, p[0], i)
    else FirstAt(what, Join(p, Occurrence(what)), |p[0]|) && Leftmost(what, p[1..])
  }

  lemma OccurrenceFirst(what: string, s: string)
    requires s != [] && OccursAt(what, s, 0)
    ensures s == [] + Occurrence(what) + s[1 + |what|..]
  {
  }

  lemma {:induction false} JoinPieces(what: string, s: string)
    ensures Join(Pieces(what, s), Occurrence(what)) == s
    decreases |s|
  {
    if s != [] {
      if OccursAt(what, s, 0) {
        JoinPieces(what, s[1 + |what|..]);
        OccurrenceFirst(what, s);
        JoinCons([], Pieces(what, s[1 + |what|..]), Occurrence(what));
      } else {
        JoinPieces(what, s[1..]);
        JoinHead(s[0], Pieces(what, s[1..]), Occurrence(what));
      }
    }
  }

  lemma JoinCons(first: string, q: seq<string>, between: string)
    requires q != []
    ensures Join([first] + q, between) == first + between + Join(q, between)
  {
    assert ([first] + q)[1..] == q;
  }

  lemma {:induction false} JoinReplaced(what: string, s: string, with: string)
    ensures Join(Pieces(what, s), with) == Substitute(what, with, s)
    decreases |s|
  {
    var p := Pieces(what, s);
    if s == [] {
    } else if OccursAt(what, s, 0) {
      JoinReplaced(what, s[1 + |what|..], with);
      JoinCons([], Pieces(what, s[1 + |what|..]), with);
    } else {
      JoinReplaced(what, s[1..], with);
      JoinHead(s[0], Pieces(what, s[1..]), with);
    }
  }

  lemma JoinHead(c: char, q: seq<string>, between: string)
    requires q != []
    ensures Join([[c] + q[0]] + q[1..], between) == [c] + Join(q, between)
  {
    var p := [[c] + q[0]] + q[1..];
    assert p[1..] == q[1..];
  }

  lemma OccursLater(what: string, s: string, i: nat)
    requires 0 < i < |s|
    ensures OccursAt(what, s, i) == OccursAt(what, s[1..], i - 1)
  {
    assert s[1..][i..] == s[i + 1..];
  }

  lemma {:induction false} PiecesLeftmost(what: string, s: string)
    ensures Leftmost(what, Pieces(what, s))
    decreases |s|
  {
    var p := Pieces(what, s);
    JoinPieces(what, s);
    if s == [] {
    } else if OccursAt(what, s, 0) {
      PiecesLeftmost(what, s[1 + |what|..]);
      assert p[1..] == Pieces(what, s[1 + |what|..]);
    } else {
      PiecesLeftmost(what, s[1..]);
      var q := Pieces(what, s[1..]);
      JoinPieces(what, s[1..]);
      assert p[1..] == q[1..];
      var n := |p[0]|;
      var whole := if |p| == 1 then p[0] else s;
      assert whole == s;
      forall i: nat | i < n && i < |s| ensures !OccursAt(what, s, i) {
        if i > 0 { OccursLater(what, s, i); }
      }
      if |p| > 1 { OccursLater(what, s, n); }
    }
  }

  /** Substitution is the leftmost non-overlapping replacement: the text is cut at the occurrences so found. */
  lemma LeftmostReplacement(what: string, with: string, s: string)
    ensures var p := Pieces(what, s);
            Join(p, Occurrence(what)) == s && Leftmost(what, p) && Substitute(what, with, s) == Join(p, with)
  {
    JoinPieces(what, s);
    JoinReplaced(what, s, with);
    PiecesLeftmost(what, s);
  }

  // ---- one parameter after another ----------------------------------------------------------

  datatype Binding = Binding(name: string, value: string)

  /** The loop over the parameters. */
  function Sequentially(b: seq<Binding>, s: string): string {
    if b == [] then s else Sequentially(b[1..], Substitute(b[0].name, b[0].value, s))
  }

  /** The first binding whose name follows a backslash here. */
  function Match(b: seq<Binding>, s: string): (k: nat)
    ensures k <= |b|
    ensures k < |b| ==> b[k].name <= s
    ensures forall j: nat | j < k :: !(b[j].name <= s)
  {
    if b == [] || b[0].name <= s then 0 else 1 + Match(b[1..], s)
  }

  /** All parameters at once. */
  function Simultaneously(b: seq<Binding>, s: string): string
    decreases |s|
  {
    if s == [] then []
    else
      var k := Match(b, s[1..]);
      if s[0] == '\\' && k < |b| then b[k].value + Simultaneously(b, s[1 + |b[k].name|..])
      else [s[0]] + Simultaneously(b, s[1..])
  }

  predicate NoBackslash(s: string) { '\\' !in s }

  /** Names and values without backslashes, and no name a prefix of another. */
  predicate Independent(b: seq<Binding>) {
    && (forall i: nat | i < |b| :: b[i].name != [] && NoBackslash(b[i].name) && NoBackslash(b[i].value))
    && (forall i: nat, j: nat | i < |b| && j < |b| && i != j :: !(b[i].name <= b[j].name))
  }

  /** Every backslash of the text starts a parameter. */
  predicate Covered(b: seq<Binding>, s: string) {
    forall i: nat | i < |s| && s[i] == '\\' :: Match(b, s[i + 1..]) < |b|
  }

  /** A text cut into plain characters and parameters. */
  datatype Token = Plain(c: char) | Param(k: nat)

  function Tokens(b: seq<Binding>, s: string): seq<Token>
    decreases |s|
  {
    if s == [] then []
    else
      var k := Match(b, s[1..]);
      if s[0] == '\\' && k < |b| then [Param(k)] + Tokens(b, s[1 + |b[k].name|..])
      else [Plain(s[0])] + Tokens(b, s[1..])
  }

  predicate TokensOf(b: seq<Binding>, ts: seq<Token>) {
    forall i: nat | i < |ts| :: match ts[i] case Plain(c) => c != '\\' case Param(k) => k < |b|
  }

  /** The text of tokens when the parameters in `done` have been replaced. */
  function View(b: seq<Binding>, ts: seq<Token>, done: seq<nat>): string {
    if ts == [] then []
    else
      var rest := View(b, ts[1..], done);
      match ts[0]
      case Plain(c) => [c] + rest
      case Param(k) =>
        if k >= |b| then rest
        else if k in done then b[k].value + rest
        else ['\\'] + b[k].name + rest
  }

  lemma CoveredRest(b: seq<Binding>, s: string, n: nat)
    requires Covered(b, s) && n <= |s|
    ensures Covered(b, s[n..])
  {
    forall i: nat | i < |s[n..]| && s[n..][i] == '\\' ensures Match(b, s[n..][i + 1..]) < |b| {
      assert s[n..][i + 1..] == s[n + i + 1..];
      assert s[n + i] == '\\';
    }
  }

  lemma CoveredHere(b: seq<Binding>, s: string)
    requires Covered(b, s) && s != []
    ensures s[0] == '\\' ==> Match(b, s[1..]) < |b|
  {
    assert s[0 + 1..] == s[1..];
  }

  /** A text is what its tokens say. */
  predicate Cut(b: seq<Binding>, s: string) {
    TokensOf(b, Tokens(b, s)) && View(b, Tokens(b, s), []) == s
  }

  lemma CutParam(b: seq<Binding>, s: string, k: nat)
    requires s != [] && s[0] == '\\' && k == Match(b, s[1..]) < |b| && Cut(b, s[1 + |b[k].name|..])
    ensures Cut(b, s)
  {
    hide Match, TokensOf;
    var rest := s[1 + |b[k].name|..];
    var ts, ts' := Tokens(b, s), Tokens(b, rest);
    assert ts == [Param(k)] + ts' && ts[1..] == ts';
    TokenFirst(b, Param(k), ts');
    assert s == ['\\'] + b[k].name + rest;
  }

  lemma CutPlain(b: seq<Binding>, s: string)
    requires s != [] && s[0] != '\\' && Cut(b, s[1..])
    ensures Cut(b, s)
  {
    hide Match, TokensOf;
    var ts, ts' := Tokens(b, s), Tokens(b, s[1..]);
    assert ts == [Plain(s[0])] + ts' && ts[1..] == ts';
    TokenFirst(b, Plain(s[0]), ts');
  }

  lemma TokenFirst(b: seq<Binding>, t: Token, ts: seq<Token>)
    requires TokensOf(b, ts) && match t case Plain(c) => c != '\\' case Param(k) => k < |b|
    ensures TokensOf(b, [t] + ts)
  {
  }

  lemma {:induction false} TokensView(b: seq<Binding>, s: string)
    requires Covered(b, s)
    ensures Cut(b, s)
    decreases |s|
  {
    hide Covered, Cut;
    if s == [] {
      NothingCut(b, s);
    } else {
      CoveredHere(b, s);
      var k := Match(b, s[1..]);
      var n := if s[0] == '\\' then 1 + |b[k].name| else 1;
      CoveredRest(b, s, n);
      TokensView(b, s[n..]);
      if s[0] == '\\' { CutParam(b, s, k); } else { CutPlain(b, s); }
    }
  }

  lemma NothingCut(b: seq<Binding>, s: string)
    requires s == []
    ensures Cut(b, s)
  {
  }

  predicate Complete(b: seq<Binding>, order: seq<nat>) {
    && (forall i: nat | i < |order| :: order[i] < |b|)
    && (forall k: nat | k < |b| :: k in order)
  }

  lemma {:induction false} AllAtOnce(b: seq<Binding>, s: string, order: seq<nat>)
    requires Complete(b, order)
    ensures Simultaneously(b, s) == View(b, Tokens(b, s), order)
    decreases |s|
  {
    if s != [] {
      var k := Match(b, s[1..]);
      var n := if s[0] == '\\' && k < |b| then 1 + |b[k].name| else 1;
      AllAtOnce(b, s[n..], order);
      assert Tokens(b, s)[1..] == Tokens(b, s[n..]);
    }
  }

  lemma {:induction false} PlainPrefix(what: string, with: string, plain: string, rest: string)
    requires NoBackslash(plain)
    ensures Substitute(what, with, plain + rest) == plain + Substitute(what, with, rest)
    decreases |plain|
  {
    if plain == [] {
      assert plain + rest == rest;
    } else {
      assert (plain + rest)[1..] == plain[1..] + rest;
      assert plain[0] in plain;
      PlainPrefix(what, with, plain[1..], rest);
    }
  }

  /** A backslash and the name are replaced, the name alone and other backslashes are not. */
  lemma FirstParameter(what: string, with: string, plain: string, rest: string)
    requires '\\' !in plain
    ensures Substitute(what, with, plain + "\\" + what + rest) == plain + with + Substitute(what, with, rest)
    ensures !(what <= rest) ==>
              Substitute(what, with, plain + "\\" + rest) == plain + "\\" + Substitute(what, with, rest)
    ensures Substitute(what, with, plain) == plain
  {
    var s, t := "\\" + what + rest, "\\" + rest;
    assert s[1..] == what + rest && s[1 + |what|..] == rest && t[1..] == rest;
    assert plain + "\\" + what + rest == plain + s && plain + "\\" + rest == plain + t;
    PlainPrefix(what, with, plain, s);
    PlainPrefix(what, with, plain, t);
    PlainPrefix(what, with, plain, []);
    assert plain + [] == plain;
  }

  /** At another parameter a name does not match, however the text goes on. */
  lemma OtherName(b: seq<Binding>, j: nat, k: nat, rest: string)
    requires Independent(b) && j < |b| && k < |b| && j != k
    ensures !(b[j].name <= b[k].name + rest)
  {
  }

  /** One pass replaces one parameter in the tokens and leaves the others as they are. */
  lemma {:induction false} OnePass(b: seq<Binding>, ts: seq<Token>, done: seq<nat>, j: nat)
    requires Independent(b) && TokensOf(b, ts) && j < |b|
    ensures Substitute(b[j].name, b[j].value, View(b, ts, done)) == View(b, ts, done + [j])
  {
    if ts != [] {
      OnePass(b, ts[1..], done, j);
      var rest := View(b, ts[1..], done);
      match ts[0]
      case Plain(c) =>
        PlainPrefix(b[j].name, b[j].value, [c], rest);
      case Param(k) =>
        if k in done {
          PlainPrefix(b[j].name, b[j].value, b[k].value, rest);
        } else {
          PassParam(b, j, k, rest);
        }
    }
  }

  lemma PassParam(b: seq<Binding>, j: nat, k: nat, rest: string)
    requires Independent(b) && j < |b| && k < |b|
    ensures var after := Substitute(b[j].name, b[j].value, rest);
            Substitute(b[j].name, b[j].value, ['\\'] + b[k].name + rest) ==
            if j == k then b[k].value + after else ['\\'] + b[k].name + after
  {
    var s := ['\\'] + b[k].name + rest;
    assert s[1..] == b[k].name + rest;
    if j == k {
      assert s[1 + |b[j].name|..] == rest;
    } else {
      OtherName(b, j, k, rest);
      PlainPrefix(b[j].name, b[j].value, b[k].name, rest);
    }
  }

  /** Bindings picked in the given order. */
  function Pick(b: seq<Binding>, order: seq<nat>): seq<Binding>
    requires forall i: nat | i < |order| :: order[i] < |b|
  {
    seq(|order|, i requires 0 <= i < |order| => b[order[i]])
  }

  lemma {:induction false} InOrder(b: seq<Binding>, ts: seq<Token>, order: seq<nat>, done: seq<nat>)
    requires Independent(b) && TokensOf(b, ts) && forall i: nat | i < |order| :: order[i] < |b|
    ensures Sequentially(Pick(b, order), View(b, ts, done)) == View(b, ts, done + order)
    decreases |order|
  {
    if order == [] {
      assert done + order == done;
    } else {
      OnePass(b, ts, done, order[0]);
      InOrder(b, ts, order[1..], done + [order[0]]);
      assert Pick(b, order)[1..] == Pick(b, order[1..]);
      assert done + [order[0]] + order[1..] == done + order;
    }
  }

  /** Passing over the parameters in any order that takes each is replacing them all at once. */
  lemma AnyOrder(b: seq<Binding>, order: seq<nat>, s: string)
    requires Independent(b) && Covered(b, s) && Complete(b, order)
    ensures Sequentially(Pick(b, order), s) == Simultaneously(b, s)
  {
    TokensView(b, s);
    AllAtOnce(b, s, order);
    InOrder(b, Tokens(b, s), order, []);
    assert [] + order == order;
  }

  /** In particular in the order of their declaration, which is what the loop does. */
  lemma SequentialIsSimultaneous(b: seq<Binding>, s: string)
    requires Independent(b) && Covered(b, s)
    ensures Sequentially(b, s) == Simultaneously(b, s)
  {
    var order := seq(|b|, i requires 0 <= i < |b| => i);
    forall k: nat | k < |b| ensures k in order { assert order[k] == k; }
    AnyOrder(b, order, s);
    assert Pick(b, order) == b;
  }
}
