/**
 Which sections a command of the linker script places, in which order, and how many bytes it takes
 (src/compile.c:3-74).
 */
module Placement {
  import opened Wrappers
  import opened Words
  import opened Link

  // ---- which sections -----------------------------------------------------------------------

  /** The sections that a command names, files and sections by their names. */
  predicate Named<N(==)>(st: State<N>, c: Command<N>, i: nat, j: nat)
    requires Has(st, i, j)
  {
    match c
    case AllFiles => true
    case AllFilesOne(part) => At(st, i, j).name == part
    case OneFile(file) => st.objects[i].name == file
    case OnePart(file, part) => st.objects[i].name == file && At(st, i, j).name == part
    case Malformed => false
    case Bytes(_) => false
  }

  predicate NewIn<N(==)>(st: State<N>, to: State<N>, i: nat, j: nat) {
    Has(st, i, j) && !IsPlaced(st, i, j) && IsPlaced(to, i, j)
  }

  /** In the order of the tables. */
  predicate Earlier(i: nat, j: nat, k: nat, l: nat) { i < k || (i == k && j < l) }

  /** What is newly placed lies behind what was there, in the order of the tables. */
  ghost predicate InOrder<N(!new)>(st: State<N>, to: State<N>) {
    && (forall i: nat, j: nat | NewIn(st, to, i, j) ::
          && Has(to, i, j) && Key(to, i, j) in to.linked
          && st.address <= Base(to, i, j) && Base(to, i, j) + At(st, i, j).size <= to.address)
    && (forall i: nat, j: nat, k: nat, l: nat | NewIn(st, to, i, j) && NewIn(st, to, k, l) && Earlier(i, j, k, l) ::
          Base(to, i, j) + At(st, i, j).size <= Base(to, k, l))
  }

  /** A section is placed afterwards exactly if it was before or lies from one place of a file up to another. */
  ghost predicate PlacesRange<N(!new)>(st: State<N>, to: State<N>, i: nat, j: nat, n: nat) {
    forall k: nat, l: nat | Has(st, k, l) :: IsPlaced(to, k, l) <==> IsPlaced(st, k, l) || (k == i && j <= l < n)
  }

  lemma PlaceExact<N(!new)>(origin: seq<Object<N>>, st: State<N>, i: nat, j: nat)
    requires Linked(origin, st) && Has(st, i, j)
    ensures var to := Place(st, i, j);
            Placing(origin, st, to) && SameElsewhere(st, to, i, j) && PlacesRange(st, to, i, j, j + 1)
  {
    PlaceKept(origin, st, i, j);
    PlaceShape(origin, st, i, j);
    var to := Place(st, i, j);
    forall k: nat, l: nat | NewIn(st, to, k, l)
      ensures k == i && l == j && Key(to, k, l) in to.linked && Base(to, k, l) == st.address
      ensures Base(to, k, l) + At(st, k, l).size <= to.address
    {
    }
  }

  /** Names and sizes stay. */
  ghost predicate SameNames<N(!new)>(st: State<N>, to: State<N>) {
    && |to.objects| == |st.objects|
    && (forall i: nat | i < |st.objects| ::
          to.objects[i].name == st.objects[i].name && |to.objects[i].parts| == |st.objects[i].parts|)
    && (forall i: nat, j: nat | Has(st, i, j) ::
          At(to, i, j).name == At(st, i, j).name && At(to, i, j).size == At(st, i, j).size)
  }

  lemma NamesStay<N(!new)>(origin: seq<Object<N>>, st: State<N>, to: State<N>)
    requires Linked(origin, st) && Linked(origin, to)
    ensures SameNames(st, to)
  {
    forall i: nat, j: nat | Has(st, i, j)
      ensures At(to, i, j).name == At(st, i, j).name && At(to, i, j).size == At(st, i, j).size
    {
      assert Has(to, i, j);
    }
  }

  /** Two steps in order, if what the first places comes before what the second places. */
  lemma InOrderThen<N(!new)>(origin: seq<Object<N>>, st: State<N>, mid: State<N>, to: State<N>)
    requires Kept(origin, st, mid) && Kept(origin, mid, to) && Linked(origin, st)
    requires InOrder(st, mid) && InOrder(mid, to) && st.address <= mid.address <= to.address
    requires forall i: nat, j: nat, k: nat, l: nat | NewIn(st, mid, i, j) && NewIn(mid, to, k, l) ::
               Earlier(i, j, k, l)
    ensures InOrder(st, to)
  {
    NamesStay(origin, st, mid);
    hide Linked;
    forall i: nat, j: nat | NewIn(st, to, i, j)
      ensures NewIn(st, mid, i, j) || NewIn(mid, to, i, j)
      ensures Has(mid, i, j) && Has(to, i, j) && Key(to, i, j) in to.linked
      ensures NewIn(st, mid, i, j) ==> Key(mid, i, j) in mid.linked && Base(to, i, j) == Base(mid, i, j)
    {
      EitherStep(st, mid, to, i, j);
    }
    forall i: nat, j: nat, k: nat, l: nat | NewIn(st, to, i, j) && NewIn(st, to, k, l) && Earlier(i, j, k, l)
      ensures Base(to, i, j) + At(st, i, j).size <= Base(to, k, l)
    {
      if NewIn(st, mid, i, j) && NewIn(st, mid, k, l) {
        assert Base(mid, i, j) + At(st, i, j).size <= Base(mid, k, l);
      } else if NewIn(st, mid, i, j) {
        assert Base(mid, i, j) + At(st, i, j).size <= mid.address <= Base(to, k, l);
      } else if NewIn(st, mid, k, l) {
        assert false;
      } else {
        assert Base(to, i, j) + At(mid, i, j).size <= Base(to, k, l);
      }
    }
  }

  lemma EitherStep<N(!new)>(st: State<N>, mid: State<N>, to: State<N>, i: nat, j: nat)
    requires NewIn(st, to, i, j) && SameNames(st, mid) && Grows(mid, to) && InOrder(st, mid) && InOrder(mid, to)
    ensures NewIn(st, mid, i, j) || NewIn(mid, to, i, j)
    ensures Has(mid, i, j) && Has(to, i, j) && Key(to, i, j) in to.linked
    ensures NewIn(st, mid, i, j) ==> Key(mid, i, j) in mid.linked && Base(to, i, j) == Base(mid, i, j)
  {
    assert Has(mid, i, j);
    if IsPlaced(mid, i, j) {
      assert NewIn(st, mid, i, j) && Key(mid, i, j) in mid.linked;
    } else {
      assert NewIn(mid, to, i, j);
    }
  }

  /** What a placement of several sections does, whichever they are. */
  ghost predicate Placing<N(!new)>(origin: seq<Object<N>>, st: State<N>, to: State<N>) {
    Kept(origin, st, to) && InOrder(st, to) && st.address <= to.address && to.errors == st.errors
  }

  lemma PlacingThen<N(!new)>(origin: seq<Object<N>>, st: State<N>, mid: State<N>, to: State<N>)
    requires Linked(origin, st) && Placing(origin, st, mid) && Placing(origin, mid, to)
    requires forall i: nat, j: nat, k: nat, l: nat | NewIn(st, mid, i, j) && NewIn(mid, to, k, l) ::
               Earlier(i, j, k, l)
    ensures Placing(origin, st, to)
  {
    hide Linked;
    InOrderThen(origin, st, mid, to);
    GrowsThen(st, mid, to);
  }

  lemma PlacingLinked<N(!new)>(origin: seq<Object<N>>, st: State<N>, to: State<N>)
    requires Placing(origin, st, to)
    ensures Linked(origin, to)
  {
  }

  lemma NothingPlaced<N(!new)>(origin: seq<Object<N>>, st: State<N>)
    requires Linked(origin, st)
    ensures Placing(origin, st, st)
  {
    Same(st);
  }

  lemma Same<N(!new)>(st: State<N>)
    ensures Grows(st, st)
  {
  }

  lemma {:induction false} PartsExact<N(!new)>(origin: seq<Object<N>>, st: State<N>, i: nat, j: nat)
    requires Linked(origin, st) && i < |st.objects| && j <= |st.objects[i].parts|
    ensures var to := PlaceParts(st, i, j);
            Placing(origin, st, to) && PlacesRange(st, to, i, j, |st.objects[i].parts|)
    decreases |st.objects[i].parts| - j
  {
    hide Linked, PlacesRange, SameElsewhere, Place, Placing, NewIn, IsPlaced, InOrder, Kept;
    if j == |st.objects[i].parts| {
      NothingPlaced(origin, st);
      NoRange(st, i, j);
    } else {
      var mid, to := Place(st, i, j), PlaceParts(st, i, j);
      PlaceExact(origin, st, i, j);
      PlacingLinked(origin, st, mid);
      NamesStay(origin, st, mid);
      PartsExact(origin, mid, i, j + 1);
      RangeThen(st, mid, to, i, j);
      PlacingThen(origin, st, mid, to);
    }
  }

  lemma NoRange<N(!new)>(st: State<N>, i: nat, j: nat)
    ensures PlacesRange(st, st, i, j, j)
  {
  }

  lemma RangeThen<N(!new)>(st: State<N>, mid: State<N>, to: State<N>, i: nat, j: nat)
    requires SameNames(st, mid) && i < |st.objects| && j < |st.objects[i].parts|
    requires PlacesRange(st, mid, i, j, j + 1) && PlacesRange(mid, to, i, j + 1, |st.objects[i].parts|)
    ensures PlacesRange(st, to, i, j, |st.objects[i].parts|)
    ensures forall k: nat, l: nat, m: nat, n: nat | NewIn(st, mid, k, l) && NewIn(mid, to, m, n) :: Earlier(k, l, m, n)
  {
    forall k: nat, l: nat | Has(st, k, l) ensures Has(mid, k, l) {
    }
  }

  /** The sections of the files from number i on. */
  ghost predicate PlacesFrom<N(!new)>(st: State<N>, to: State<N>, i: nat) {
    forall k: nat, l: nat | Has(st, k, l) :: IsPlaced(to, k, l) <==> IsPlaced(st, k, l) || i <= k
  }

  lemma {:induction false} ObjectsExact<N(!new)>(origin: seq<Object<N>>, st: State<N>, i: nat)
    requires Linked(origin, st) && i <= |st.objects|
    ensures Placing(origin, st, PlaceObjects(st, i)) && PlacesFrom(st, PlaceObjects(st, i), i)
    decreases |st.objects| - i
  {
    hide Linked, Placing, NewIn, IsPlaced, PlacesFrom, PlacesRange, Kept, InOrder, PlaceParts;
    if i == |st.objects| {
      NothingPlaced(origin, st);
      NothingFrom(st);
    } else {
      var mid, to := PlaceParts(st, i, 0), PlaceObjects(st, i);
      PartsExact(origin, st, i, 0);
      PlacingLinked(origin, st, mid);
      ObjectsExact(origin, mid, i + 1);
      NamesStay(origin, st, mid);
      FromThen(st, mid, to, i);
      PlacingThen(origin, st, mid, to);
    }
  }

  lemma NothingFrom<N(!new)>(st: State<N>)
    ensures PlacesFrom(st, st, |st.objects|)
    ensures forall name :: PlacesNamed(st, st, name, |st.objects|)
  {
  }

  lemma FromThen<N(!new)>(st: State<N>, mid: State<N>, to: State<N>, i: nat)
    requires SameNames(st, mid) && i < |st.objects|
    requires PlacesRange(st, mid, i, 0, |st.objects[i].parts|) && PlacesFrom(mid, to, i + 1)
    ensures PlacesFrom(st, to, i)
    ensures forall k: nat, l: nat, m: nat, n: nat | NewIn(st, mid, k, l) && NewIn(mid, to, m, n) :: Earlier(k, l, m, n)
  {
    forall k: nat, l: nat | Has(st, k, l) ensures Has(mid, k, l) {
    }
  }

  /** The sections of one name in the files from number i on. */
  ghost predicate PlacesNamed<N(!new)>(st: State<N>, to: State<N>, name: N, i: nat) {
    forall k: nat, l: nat | Has(st, k, l) ::
      IsPlaced(to, k, l) <==> IsPlaced(st, k, l) || (i <= k && At(st, k, l).name == name)
  }

  /** In one file: the section of the name, if there is one. */
  ghost predicate PlacesOne<N(!new)>(st: State<N>, to: State<N>, name: N, i: nat) {
    forall k: nat, l: nat | Has(st, k, l) ::
      IsPlaced(to, k, l) <==> IsPlaced(st, k, l) || (k == i && At(st, k, l).name == name)
  }

  lemma OneExact<N(!new)>(origin: seq<Object<N>>, st: State<N>, name: N, i: nat)
    requires Linked(origin, st) && i < |st.objects|
    ensures var j := Find(PartNames(st.objects[i].parts), name);
            var to := if j < |st.objects[i].parts| then Place(st, i, j) else st;
            Placing(origin, st, to) && PlacesOne(st, to, name, i)
  {
    var j := Find(PartNames(st.objects[i].parts), name);
    forall l: nat | l < |st.objects[i].parts| ensures l == j <==> At(st, i, l).name == name {
      SearchUnique(origin, st, i, l);
    }
    if j < |st.objects[i].parts| { PlaceExact(origin, st, i, j); } else { NothingPlaced(origin, st); }
  }

  lemma {:induction false} NamedExact<N(!new)>(origin: seq<Object<N>>, st: State<N>, name: N, i: nat)
    requires Linked(origin, st) && i <= |st.objects|
    ensures Placing(origin, st, PlaceNamed(st, name, i)) && PlacesNamed(st, PlaceNamed(st, name, i), name, i)
    decreases |st.objects| - i
  {
    hide Linked, Placing, NewIn, IsPlaced, PlacesNamed, PlacesOne, Kept, InOrder, Place, Find;
    if i == |st.objects| {
      NothingPlaced(origin, st);
      NothingFrom(st);
    } else {
      var j := Find(PartNames(st.objects[i].parts), name);
      var mid, to := if j < |st.objects[i].parts| then Place(st, i, j) else st, PlaceNamed(st, name, i);
      OneExact(origin, st, name, i);
      PlacingLinked(origin, st, mid);
      NamesStay(origin, st, mid);
      NamedExact(origin, mid, name, i + 1);
      NamedThen(st, mid, to, name, i);
      PlacingThen(origin, st, mid, to);
    }
  }

  lemma NamedThen<N(!new)>(st: State<N>, mid: State<N>, to: State<N>, name: N, i: nat)
    requires SameNames(st, mid) && i < |st.objects|
    requires PlacesOne(st, mid, name, i) && PlacesNamed(mid, to, name, i + 1)
    ensures PlacesNamed(st, to, name, i)
    ensures forall k: nat, l: nat, m: nat, n: nat | NewIn(st, mid, k, l) && NewIn(mid, to, m, n) :: Earlier(k, l, m, n)
  {
    forall k: nat, l: nat | Has(st, k, l) ensures Has(mid, k, l) {
    }
  }

  // ---- commands -----------------------------------------------------------------------------

  /** After a command exactly what was placed before and what it names is placed. */
  ghost predicate PlacesWhatIsNamed<N(!new)>(st: State<N>, to: State<N>, c: Command<N>) {
    forall i: nat, j: nat | Has(st, i, j) :: IsPlaced(to, i, j) <==> IsPlaced(st, i, j) || Named(st, c, i, j)
  }

  /** The number of errors of a command: a name that is not there, a section without its data, a wrong form. */
  ghost predicate Fails<N(!new)>(st: State<N>, c: Command<N>) {
    match c
    case AllFiles => false
    case AllFilesOne(_) => false
    case OneFile(file) => forall i: nat | i < |st.objects| :: st.objects[i].name != file
    case OnePart(file, part) =>
      !exists i: nat, j: nat :: Has(st, i, j) && Key(st, i, j) == (file, part) && !IsPlaced(st, i, j)
    case Malformed => true
    case Bytes(_) => false
  }

  /**
   In any state that a script reaches, a command places exactly the sections that it names, behind all that
   was there and in the order of the tables.
   */
  lemma CommandPlaces<N(!new)>(origin: seq<Object<N>>, script: seq<Command<N>>, st: State<N>, c: Command<N>)
    requires Compiled(origin) && st == Run(Begin(origin), script)
    ensures var to := Execute(st, c);
            && PlacesWhatIsNamed(st, to, c) && InOrder(st, to)
            && to.errors == st.errors + if Fails(st, c) then 1 else 0
  {
    hide Linked;
    BeginLinked(origin);
    RunKept(origin, Begin(origin), script);
    match c
    case AllFiles => ObjectsExact(origin, st, 0);
    case AllFilesOne(part) => NamedExact(origin, st, part, 0);
    case OneFile(file) => FileExact(origin, st, file);
    case OnePart(file, part) => PartExact(origin, st, file, part);
    case Malformed => AnotherError(st);
    case Bytes(b) => OnlyBytes(st, b);
  }

  lemma BeginLinked<N(!new)>(origin: seq<Object<N>>)
    requires Compiled(origin)
    ensures Linked(origin, Begin(origin))
  {
  }

  lemma AnotherError<N(!new)>(st: State<N>)
    ensures var to := st.(errors := st.errors + 1);
            forall i: nat, j: nat | Has(st, i, j) :: IsPlaced(to, i, j) <==> IsPlaced(st, i, j)
    ensures InOrder(st, st.(errors := st.errors + 1))
  {
    SameObjects(st, st.(errors := st.errors + 1));
  }

  lemma OnlyBytes<N(!new)>(st: State<N>, b: seq<Byte>)
    ensures var to := Execute(st, Bytes(b));
            && to.objects == st.objects && to.linked == st.linked && to.address == st.address + |b|
            && Flat(to.chunks) == Flat(st.chunks) + b
    ensures PlacesWhatIsNamed(st, Execute(st, Bytes(b)), Bytes(b)) && InOrder(st, Execute(st, Bytes(b)))
  {
    FlatAdd(st.chunks, b);
    hide Flat;
    SameObjects(st, Execute(st, Bytes(b)));
  }

  lemma SameObjects<N(!new)>(st: State<N>, to: State<N>)
    requires to.objects == st.objects
    ensures forall i: nat, j: nat | Has(st, i, j) :: IsPlaced(to, i, j) <==> IsPlaced(st, i, j)
    ensures InOrder(st, to)
  {
    assert forall i: nat, j: nat :: !NewIn(st, to, i, j);
  }

  lemma FileExact<N(!new)>(origin: seq<Object<N>>, st: State<N>, file: N)
    requires Linked(origin, st)
    ensures var to, c := Execute(st, OneFile(file)), OneFile(file);
            PlacesWhatIsNamed(st, to, c) && InOrder(st, to) && to.errors == st.errors + if Fails(st, c) then 1 else 0
  {
    var i := Find(ObjectNames(st.objects), file);
    forall k: nat | k < |st.objects| ensures k == i <==> st.objects[k].name == file {
      FileUnique(origin, st, k);
    }
    if i < |st.objects| { PartsExact(origin, st, i, 0); } else { AnotherError(st); }
  }

  lemma FileUnique<N(!new)>(origin: seq<Object<N>>, st: State<N>, k: nat)
    requires Linked(origin, st) && k < |st.objects|
    ensures Find(ObjectNames(st.objects), st.objects[k].name) == k
  {
    assert ObjectNames(st.objects)[k] == st.objects[k].name;
  }

  lemma PartExact<N(!new)>(origin: seq<Object<N>>, st: State<N>, file: N, part: N)
    requires Linked(origin, st)
    ensures var to, c := Execute(st, OnePart(file, part)), OnePart(file, part);
            PlacesWhatIsNamed(st, to, c) && InOrder(st, to) && to.errors == st.errors + if Fails(st, c) then 1 else 0
  {
    hide Linked, PlacesRange, InOrder;
    var i := Find(ObjectNames(st.objects), file);
    var j := if i < |st.objects| then Find(PartNames(st.objects[i].parts), part) else 0;
    forall k: nat, l: nat | Has(st, k, l)
      ensures (k == i && l == j) <==> st.objects[k].name == file && At(st, k, l).name == part
    {
      SearchPlace(origin, st, file, part, k, l);
    }
    if i < |st.objects| && j < |st.objects[i].parts| && !IsPlaced(st, i, j) {
      assert Key(st, i, j) == (file, part);
      PlaceExact(origin, st, i, j);
      RangeOfOne(st, Place(st, i, j), file, part, i, j);
    } else {
      AnotherError(st);
      forall k: nat, l: nat | Has(st, k, l) && Key(st, k, l) == (file, part) ensures IsPlaced(st, k, l) {
      }
    }
  }

  lemma SearchPlace<N(!new)>(origin: seq<Object<N>>, st: State<N>, file: N, part: N, k: nat, l: nat)
    requires Linked(origin, st) && Has(st, k, l)
    ensures var i := Find(ObjectNames(st.objects), file);
            var j := if i < |st.objects| then Find(PartNames(st.objects[i].parts), part) else 0;
            (k == i && l == j) <==> st.objects[k].name == file && At(st, k, l).name == part
  {
    SearchUnique(origin, st, k, l);
  }

  lemma RangeOfOne<N(!new)>(st: State<N>, to: State<N>, file: N, part: N, i: nat, j: nat)
    requires PlacesRange(st, to, i, j, j + 1)
    requires forall k: nat, l: nat | Has(st, k, l) ::
               (k == i && l == j) <==> st.objects[k].name == file && At(st, k, l).name == part
    ensures PlacesWhatIsNamed(st, to, OnePart(file, part))
  {
  }

  // ---- how many bytes -----------------------------------------------------------------------

  /** The bytes of the sections that are still to be placed. */
  function PartsLeft<N>(parts: seq<Part<N>>): nat {
    if parts == [] then 0 else (if parts[0].data.Some? then parts[0].size else 0) + PartsLeft(parts[1..])
  }

  function Left<N>(objects: seq<Object<N>>): nat {
    if objects == [] then 0 else PartsLeft(objects[0].parts) + Left(objects[1..])
  }

  lemma {:induction false} PartTaken<N>(parts: seq<Part<N>>, j: nat)
    requires j < |parts| && parts[j].data.Some?
    ensures PartsLeft(parts[j := parts[j].(data := None)]) + parts[j].size == PartsLeft(parts)
    decreases j
  {
    var after := parts[j := parts[j].(data := None)];
    if j == 0 {
      assert after[1..] == parts[1..];
    } else {
      assert after[1..] == parts[1..][j - 1 := parts[j].(data := None)];
      PartTaken(parts[1..], j - 1);
    }
  }

  lemma {:induction false} ObjectTaken<N>(objects: seq<Object<N>>, i: nat, file: Object<N>, size: nat)
    requires i < |objects| && PartsLeft(file.parts) + size == PartsLeft(objects[i].parts)
    ensures Left(objects[i := file]) + size == Left(objects)
    decreases i
  {
    var after := objects[i := file];
    if i == 0 {
      assert after[1..] == objects[1..];
    } else {
      assert after[1..] == objects[1..][i - 1 := file];
      ObjectTaken(objects[1..], i - 1, file, size);
    }
  }

  /** Placing takes from what is left exactly what it adds to the address. */
  function Account<N(==)>(st: State<N>): nat { st.address + Left(st.objects) }

  lemma PlaceAccount<N>(st: State<N>, i: nat, j: nat)
    requires Has(st, i, j)
    ensures Account(Place(st, i, j)) == Account(st)
  {
    var file := st.objects[i];
    if At(st, i, j).data.Some? {
      PartTaken(file.parts, j);
      ObjectTaken(st.objects, i, file.(parts := file.parts[j := At(st, i, j).(data := None)]), At(st, i, j).size);
    }
  }

  lemma {:induction false} PartsAccount<N>(st: State<N>, i: nat, j: nat)
    requires i < |st.objects| && j <= |st.objects[i].parts|
    ensures Account(PlaceParts(st, i, j)) == Account(st)
    decreases |st.objects[i].parts| - j
  {
    if j < |st.objects[i].parts| {
      PlaceAccount(st, i, j);
      PartsAccount(Place(st, i, j), i, j + 1);
    }
  }

  lemma {:induction false} ObjectsAccount<N>(st: State<N>, i: nat)
    requires i <= |st.objects|
    ensures Account(PlaceObjects(st, i)) == Account(st)
    decreases |st.objects| - i
  {
    if i < |st.objects| {
      PartsAccount(st, i, 0);
      ObjectsAccount(PlaceParts(st, i, 0), i + 1);
    }
  }

  lemma {:induction false} NamedAccount<N>(st: State<N>, name: N, i: nat)
    requires i <= |st.objects|
    ensures Account(PlaceNamed(st, name, i)) == Account(st)
    decreases |st.objects| - i
  {
    if i < |st.objects| {
      var j := Find(PartNames(st.objects[i].parts), name);
      if j < |st.objects[i].parts| { PlaceAccount(st, i, j); }
      NamedAccount(if j < |st.objects[i].parts| then Place(st, i, j) else st, name, i + 1);
    }
  }

  /** The bytes that the script writes itself. */
  function Written<N>(script: seq<Command<N>>): nat {
    if script == [] then 0 else (if script[0].Bytes? then |script[0].b| else 0) + Written(script[1..])
  }

  /**
   No byte is lost and none is made up: the address is the sizes of the placed sections and the bytes of the
   script together.
   */
  lemma {:induction false} NoGaps<N>(st: State<N>, script: seq<Command<N>>)
    ensures Run(st, script).address + Left(Run(st, script).objects) == st.address + Left(st.objects) + Written(script)
    decreases |script|
  {
    if script != [] {
      match script[0] {
        case AllFiles => ObjectsAccount(st, 0);
        case AllFilesOne(part) => NamedAccount(st, part, 0);
        case OneFile(file) =>
          var i := Find(ObjectNames(st.objects), file);
          if i < |st.objects| { PartsAccount(st, i, 0); }
        case OnePart(file, part) =>
          var i := Find(ObjectNames(st.objects), file);
          if i < |st.objects| {
            var j := Find(PartNames(st.objects[i].parts), part);
            if j < |st.objects[i].parts| { PlaceAccount(st, i, j); }
          }
        case Malformed =>
        case Bytes(_) =>
      }
      NoGaps(Execute(st, script[0]), script[1..]);
    }
  }
}
