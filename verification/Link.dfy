/**
 Placement of compiled sections by a linker script (src/compile.c:3-74, 371-425).
 */
module Link {
  import opened Wrappers
  import opened Words

  /** A compiled section: its data is taken away when it is placed. */
  datatype Part<N> = Part(name: N, size: nat, data: Option<seq<Byte>>)

  /** The files and their sections in the order in which the tables are walked. */
  datatype Object<N> = Object(name: N, parts: seq<Part<N>>)

  datatype State<!N(==)> = State(objects: seq<Object<N>>, address: nat, chunks: seq<seq<Byte>>,
    linked: map<(N, N), nat>, errors: nat)

  function Flat(chunks: seq<seq<Byte>>): seq<Byte> {
    if chunks == [] then [] else Flat(chunks[..|chunks| - 1]) + chunks[|chunks| - 1]
  }

  predicate Has<N(==)>(st: State<N>, i: nat, j: nat) { i < |st.objects| && j < |st.objects[i].parts| }

  function At<N(==)>(st: State<N>, i: nat, j: nat): Part<N>
    requires Has(st, i, j)
  {
    st.objects[i].parts[j]
  }

  function Key<N(==)>(st: State<N>, i: nat, j: nat): (N, N)
    requires Has(st, i, j)
  {
    (st.objects[i].name, At(st, i, j).name)
  }

  /** helper_section_link, where the section still has its data. */
  function Place<N(==)>(st: State<N>, i: nat, j: nat): State<N>
    requires Has(st, i, j)
  {
    var file, part := st.objects[i], At(st, i, j);
    if part.data.None? then st
    else
      State(st.objects[i := file.(parts := file.parts[j := part.(data := None)])],
            st.address + part.size, st.chunks + [part.data.value], st.linked[Key(st, i, j) := st.address], st.errors)
  }

  /** All sections of a file, from number j on. */
  function PlaceParts<N(==)>(st: State<N>, i: nat, j: nat): (r: State<N>)
    requires i < |st.objects| && j <= |st.objects[i].parts|
    ensures |r.objects| == |st.objects|
    decreases |st.objects[i].parts| - j
  {
    if j == |st.objects[i].parts| then st else PlaceParts(Place(st, i, j), i, j + 1)
  }

  /** All sections of all files, from number i on. */
  function PlaceObjects<N(==)>(st: State<N>, i: nat): State<N>
    requires i <= |st.objects|
    decreases |st.objects| - i
  {
    if i == |st.objects| then st else PlaceObjects(PlaceParts(st, i, 0), i + 1)
  }

  /** The number of a name in a table, or the number of names. */
  function Find<N(==)>(names: seq<N>, name: N): (k: nat)
    ensures k <= |names| && (k < |names| ==> names[k] == name)
    ensures forall i: nat | i < k :: names[i] != name
  {
    if names == [] || names[0] == name then 0 else 1 + Find(names[1..], name)
  }

  function PartNames<N>(parts: seq<Part<N>>): seq<N> { seq(|parts|, j requires 0 <= j < |parts| => parts[j].name) }

  function ObjectNames<N>(objects: seq<Object<N>>): seq<N> {
    seq(|objects|, i requires 0 <= i < |objects| => objects[i].name)
  }

  /** The section of one name in all files, from number i on. */
  function PlaceNamed<N(==)>(st: State<N>, name: N, i: nat): State<N>
    requires i <= |st.objects|
    decreases |st.objects| - i
  {
    if i == |st.objects| then st
    else
      var j := Find(PartNames(st.objects[i].parts), name);
      PlaceNamed(if j < |st.objects[i].parts| then Place(st, i, j) else st, name, i + 1)
  }

  /** `file *`, `file * section`, `file name`, `file name section`; bytes from the directives of a script. */
  datatype Command<N> = AllFiles | AllFilesOne(part: N) | OneFile(file: N)
    | OnePart(file: N, part: N) | Malformed | Bytes(b: seq<Byte>)

  function Execute<N(==)>(st: State<N>, c: Command<N>): State<N> {
    match c
    case AllFiles => PlaceObjects(st, 0)
    case AllFilesOne(part) => PlaceNamed(st, part, 0)
    case OneFile(file) =>
      var i := Find(ObjectNames(st.objects), file);
      if i < |st.objects| then PlaceParts(st, i, 0) else st.(errors := st.errors + 1)
    case OnePart(file, part) =>
      var i := Find(ObjectNames(st.objects), file);
      if i == |st.objects| then st.(errors := st.errors + 1)
      else
        var j := Find(PartNames(st.objects[i].parts), part);
        if j == |st.objects[i].parts| || At(st, i, j).data.None? then st.(errors := st.errors + 1) else Place(st, i, j)
    case Malformed => st.(errors := st.errors + 1)
    case Bytes(b) => st.(address := st.address + |b|, chunks := st.chunks + [b])
  }

  function Run<N(==)>(st: State<N>, script: seq<Command<N>>): State<N>
    decreases |script|
  {
    if script == [] then st else Run(Execute(st, script[0]), script[1..])
  }

  function Begin<N(==)>(objects: seq<Object<N>>): State<N> { State(objects, 0, [], map[], 0) }

  // ---- the linker ---------------------------------------------------------------------------

  class Linker<N(==)> {
    var objects: seq<Object<N>>
    var address: nat
    var chunks: seq<seq<Byte>>
    var linked: map<(N, N), nat>
    var errors: nat

    constructor (input: seq<Object<N>>)
      ensures View() == Begin(input)
    {
      objects, address, chunks, linked, errors := input, 0, [], map[], 0;
    }

    ghost function View(): State<N>
      reads this
    {
      State(objects, address, chunks, linked, errors)
    }

    /** helper_section_link and the note of the base; a section without data is passed over. */
    method LinkPart(i: nat, j: nat)
      requires Has(View(), i, j)
      modifies this
      ensures View() == Place(old(View()), i, j)
    {
      var part := objects[i].parts[j];
      if part.data.None? { return; }
      chunks := chunks + [part.data.value];
      linked := linked[(objects[i].name, part.name) := address];
      address := address + part.size;
      objects := objects[i := objects[i].(parts := objects[i].parts[j := part.(data := None)])];
    }

    method LinkParts(i: nat)
      requires i < |objects|
      modifies this
      ensures View() == PlaceParts(old(View()), i, 0)
    {
      var j := 0;
      while j < |objects[i].parts|
        invariant |objects| == old(|objects|) && j <= |objects[i].parts| == old(|objects[i].parts|)
        invariant PlaceParts(View(), i, j) == PlaceParts(old(View()), i, 0)
      {
        LinkPart(i, j);
        j := j + 1;
      }
    }

    /** _parse_linker. */
    method Run(c: Command<N>)
      modifies this
      ensures View() == Execute(old(View()), c)
    {
      match c {
        case AllFiles =>
          for i := 0 to |objects|
            invariant |objects| == old(|objects|) && PlaceObjects(View(), i) == PlaceObjects(old(View()), 0)
          {
            LinkParts(i);
          }
        case AllFilesOne(part) =>
          for i := 0 to |objects|
            invariant |objects| == old(|objects|) && PlaceNamed(View(), part, i) == PlaceNamed(old(View()), part, 0)
          {
            var j := Find(PartNames(objects[i].parts), part);
            if j < |objects[i].parts| { LinkPart(i, j); }
          }
        case OneFile(file) =>
          var i := Find(ObjectNames(objects), file);
          if i < |objects| { LinkParts(i); } else { errors := errors + 1; }
        case OnePart(file, part) =>
          var i := Find(ObjectNames(objects), file);
          if i == |objects| { errors := errors + 1; return; }
          var j := Find(PartNames(objects[i].parts), part);
          if j == |objects[i].parts| || objects[i].parts[j].data.None? { errors := errors + 1; return; }
          LinkPart(i, j);
        case Malformed => errors := errors + 1;
        case Bytes(b) => address, chunks := address + |b|, chunks + [b];
      }
    }
  }

  // ---- what a script keeps ------------------------------------------------------------------

  /** Tables have each name once, and compiled sections hold as many bytes as they say. */
  ghost predicate Compiled<N(!new)>(objects: seq<Object<N>>) {
    && (forall i: nat, k: nat | i < k < |objects| :: objects[i].name != objects[k].name)
    && (forall i: nat, j: nat, k: nat | i < |objects| && j < k < |objects[i].parts| ::
          objects[i].parts[j].name != objects[i].parts[k].name)
    && (forall i: nat, j: nat | i < |objects| && j < |objects[i].parts| ::
          objects[i].parts[j].data.Some? && |objects[i].parts[j].data.value| == objects[i].parts[j].size)
  }

  /** The same files and sections, some of them without their data. */
  ghost predicate SameShape<N(!new)>(origin: seq<Object<N>>, st: State<N>) {
    && |st.objects| == |origin|
    && (forall i: nat | i < |origin| ::
          st.objects[i].name == origin[i].name && |st.objects[i].parts| == |origin[i].parts|)
    && (forall i: nat, j: nat | Has(st, i, j) ::
          At(st, i, j) == origin[i].parts[j] || At(st, i, j) == origin[i].parts[j].(data := None))
  }

  predicate IsPlaced<N(==)>(st: State<N>, i: nat, j: nat) { Has(st, i, j) && At(st, i, j).data.None? }

  function Base<N(==)>(st: State<N>, i: nat, j: nat): nat
    requires Has(st, i, j) && Key(st, i, j) in st.linked
  {
    st.linked[Key(st, i, j)]
  }

  /** A section has a base exactly if it is placed, and its bytes are there. */
  ghost predicate Recorded<N(!new)>(origin: seq<Object<N>>, st: State<N>)
    requires Compiled(origin) && SameShape(origin, st)
  {
    forall i: nat, j: nat | Has(st, i, j) ::
      && (Key(st, i, j) in st.linked <==> IsPlaced(st, i, j))
      && (IsPlaced(st, i, j) ==>
            && Base(st, i, j) + At(st, i, j).size <= |Flat(st.chunks)|
            && Flat(st.chunks)[Base(st, i, j)..Base(st, i, j) + At(st, i, j).size] == origin[i].parts[j].data.value)
  }

  ghost predicate Apart<N(!new)>(origin: seq<Object<N>>, st: State<N>)
    requires Compiled(origin) && SameShape(origin, st) && Recorded(origin, st)
  {
    forall i: nat, j: nat, k: nat, l: nat | IsPlaced(st, i, j) && IsPlaced(st, k, l) && (i != k || j != l) ::
      Base(st, i, j) + At(st, i, j).size <= Base(st, k, l) || Base(st, k, l) + At(st, k, l).size <= Base(st, i, j)
  }

  ghost predicate Linked<N(!new)>(origin: seq<Object<N>>, st: State<N>) {
    && Compiled(origin) && SameShape(origin, st) && st.address == |Flat(st.chunks)|
    && Recorded(origin, st) && Apart(origin, st)
  }

  lemma FlatAdd(chunks: seq<seq<Byte>>, b: seq<Byte>)
    ensures Flat(chunks + [b]) == Flat(chunks) + b
  {
    assert (chunks + [b])[..|chunks|] == chunks;
  }

  lemma KeyUnique<N(!new)>(origin: seq<Object<N>>, st: State<N>, i: nat, j: nat, k: nat, l: nat)
    requires Compiled(origin) && SameShape(origin, st) && Has(st, i, j) && Has(st, k, l)
    ensures Key(st, i, j) == Key(st, k, l) <==> i == k && j == l
  {
    assert At(st, i, j).name == origin[i].parts[j].name && At(st, k, l).name == origin[k].parts[l].name;
  }

  /** What else is placed where after a step. */
  ghost predicate SameElsewhere<N(!new)>(st: State<N>, to: State<N>, i: nat, j: nat) {
    && |to.objects| == |st.objects|
    && (forall k: nat | k < |st.objects| ::
          to.objects[k].name == st.objects[k].name && |to.objects[k].parts| == |st.objects[k].parts|)
    && (forall k: nat, l: nat | Has(st, k, l) && (k != i || l != j) :: At(to, k, l) == At(st, k, l))
  }

  lemma PlaceShape<N(!new)>(origin: seq<Object<N>>, st: State<N>, i: nat, j: nat)
    requires Compiled(origin) && SameShape(origin, st) && Has(st, i, j)
    ensures SameElsewhere(st, Place(st, i, j), i, j) && SameShape(origin, Place(st, i, j))
    ensures IsPlaced(Place(st, i, j), i, j)
  {
  }

  /** The bases after a placement: the new one at the old address, the others as before and below it. */
  ghost predicate Bases<N(!new)>(st: State<N>, to: State<N>, i: nat, j: nat) {
    && SameElsewhere(st, to, i, j)
    && (forall k: nat, l: nat | Has(to, k, l) && Key(to, k, l) in to.linked ::
          if k == i && l == j then Base(to, k, l) == st.address
          else IsPlaced(st, k, l) && Key(st, k, l) in st.linked && Base(to, k, l) == Base(st, k, l)
               && Base(st, k, l) + At(st, k, l).size <= st.address)
  }

  lemma PlaceRecorded<N(!new)>(origin: seq<Object<N>>, st: State<N>, i: nat, j: nat)
    requires Compiled(origin) && SameShape(origin, st) && st.address == |Flat(st.chunks)| && Recorded(origin, st)
    requires Has(st, i, j) && At(st, i, j).data.Some?
    ensures var to := Place(st, i, j);
            SameShape(origin, to) && Bases(st, to, i, j) && to.address == |Flat(to.chunks)| && Recorded(origin, to)
  {
    PlaceShape(origin, st, i, j);
    var to := Place(st, i, j);
    FlatAdd(st.chunks, At(st, i, j).data.value);
    forall k: nat, l: nat | Has(to, k, l)
      ensures Key(to, k, l) in to.linked <==> IsPlaced(to, k, l)
      ensures IsPlaced(to, k, l) ==>
                && Base(to, k, l) + At(to, k, l).size <= |Flat(to.chunks)|
                && Flat(to.chunks)[Base(to, k, l)..Base(to, k, l) + At(to, k, l).size] == origin[k].parts[l].data.value
                && (if k == i && l == j then Base(to, k, l) == st.address
                    else IsPlaced(st, k, l) && Base(to, k, l) == Base(st, k, l)
                         && Base(st, k, l) + At(st, k, l).size <= st.address)
    {
      KeyUnique(origin, st, i, j, k, l);
      assert Key(to, k, l) == Key(st, k, l);
    }
  }

  lemma PlaceLinked<N(!new)>(origin: seq<Object<N>>, st: State<N>, i: nat, j: nat)
    requires Linked(origin, st) && Has(st, i, j)
    ensures Linked(origin, Place(st, i, j)) && IsPlaced(Place(st, i, j), i, j)
  {
    PlaceShape(origin, st, i, j);
    if At(st, i, j).data.Some? { PlaceRecorded(origin, st, i, j); }
  }

  /** What is placed stays where it is, and bytes are only added. */
  ghost predicate Grows<N(!new)>(st: State<N>, to: State<N>) {
    && |to.objects| == |st.objects|
    && (forall i: nat | i < |st.objects| :: |to.objects[i].parts| == |st.objects[i].parts|)
    && Flat(st.chunks) <= Flat(to.chunks)
    && (forall i: nat, j: nat | IsPlaced(st, i, j) && Key(st, i, j) in st.linked ::
          IsPlaced(to, i, j) && Key(to, i, j) == Key(st, i, j)
          && Key(to, i, j) in to.linked && Base(to, i, j) == Base(st, i, j))
  }

  lemma PlaceGrows<N(!new)>(origin: seq<Object<N>>, st: State<N>, i: nat, j: nat)
    requires Linked(origin, st) && Has(st, i, j)
    ensures Grows(st, Place(st, i, j))
  {
    PlaceShape(origin, st, i, j);
    var to := Place(st, i, j);
    if At(st, i, j).data.Some? {
      FlatAdd(st.chunks, At(st, i, j).data.value);
      forall k: nat, l: nat | IsPlaced(st, k, l) && Key(st, k, l) in st.linked
        ensures IsPlaced(to, k, l) && Key(to, k, l) == Key(st, k, l)
                && Key(to, k, l) in to.linked && Base(to, k, l) == Base(st, k, l)
      {
        KeyUnique(origin, st, i, j, k, l);
      }
    }
  }

  lemma GrowsThen<N(!new)>(a: State<N>, b: State<N>, c: State<N>)
    requires Grows(a, b) && Grows(b, c)
    ensures Grows(a, c)
  {
  }

  /** What a command keeps. */
  ghost predicate Kept<N(!new)>(origin: seq<Object<N>>, st: State<N>, to: State<N>) {
    Linked(origin, to) && Grows(st, to)
  }

  lemma PlaceKept<N(!new)>(origin: seq<Object<N>>, st: State<N>, i: nat, j: nat)
    requires Linked(origin, st) && Has(st, i, j)
    ensures Kept(origin, st, Place(st, i, j)) && IsPlaced(Place(st, i, j), i, j)
  {
    PlaceLinked(origin, st, i, j);
    PlaceGrows(origin, st, i, j);
  }

  lemma {:induction false} PartsKept<N(!new)>(origin: seq<Object<N>>, st: State<N>, i: nat, j: nat)
    requires Linked(origin, st) && i < |st.objects| && j <= |st.objects[i].parts|
    ensures Kept(origin, st, PlaceParts(st, i, j))
    ensures forall k: nat | j <= k < |st.objects[i].parts| :: IsPlaced(PlaceParts(st, i, j), i, k)
    decreases |st.objects[i].parts| - j
  {
    if j < |st.objects[i].parts| {
      var next := Place(st, i, j);
      PlaceKept(origin, st, i, j);
      PartsKept(origin, next, i, j + 1);
      GrowsThen(st, next, PlaceParts(st, i, j));
      assert Key(next, i, j) in next.linked;
    }
  }

  lemma {:induction false} ObjectsKept<N(!new)>(origin: seq<Object<N>>, st: State<N>, i: nat)
    requires Linked(origin, st) && i <= |st.objects|
    ensures Kept(origin, st, PlaceObjects(st, i))
    ensures forall k: nat, l: nat | i <= k && Has(st, k, l) :: IsPlaced(PlaceObjects(st, i), k, l)
    decreases |st.objects| - i
  {
    if i < |st.objects| {
      var next, end := PlaceParts(st, i, 0), PlaceObjects(st, i);
      PartsKept(origin, st, i, 0);
      ObjectsKept(origin, next, i + 1);
      GrowsThen(st, next, end);
      forall k: nat, l: nat | i <= k && Has(st, k, l) ensures IsPlaced(end, k, l) {
        assert Has(next, k, l);
        if k == i { assert IsPlaced(next, k, l) && Key(next, k, l) in next.linked; }
      }
    }
  }

  lemma {:induction false} NamedKept<N(!new)>(origin: seq<Object<N>>, st: State<N>, name: N, i: nat)
    requires Linked(origin, st) && i <= |st.objects|
    ensures Kept(origin, st, PlaceNamed(st, name, i))
    decreases |st.objects| - i
  {
    if i < |st.objects| {
      var j := Find(PartNames(st.objects[i].parts), name);
      var next := if j < |st.objects[i].parts| then Place(st, i, j) else st;
      if j < |st.objects[i].parts| { PlaceKept(origin, st, i, j); }
      NamedKept(origin, next, name, i + 1);
      GrowsThen(st, next, PlaceNamed(st, name, i));
    }
  }

  lemma ErrorKept<N(!new)>(origin: seq<Object<N>>, st: State<N>)
    requires Linked(origin, st)
    ensures Kept(origin, st, st.(errors := st.errors + 1))
  {
    forall k: nat, l: nat | Has(st, k, l)
      ensures At(st.(errors := st.errors + 1), k, l) == At(st, k, l)
    {
    }
  }

  lemma CommandKept<N(!new)>(origin: seq<Object<N>>, st: State<N>, c: Command<N>)
    requires Linked(origin, st)
    ensures Kept(origin, st, Execute(st, c))
    ensures c.AllFiles? ==> forall k: nat, l: nat | Has(st, k, l) :: IsPlaced(Execute(st, c), k, l)
  {
    hide Linked, Kept;
    ErrorKept(origin, st);
    match c
    case AllFiles => ObjectsKept(origin, st, 0);
    case AllFilesOne(part) => NamedKept(origin, st, part, 0);
    case OneFile(file) =>
      var i := Find(ObjectNames(st.objects), file);
      if i < |st.objects| { PartsKept(origin, st, i, 0); }
    case OnePart(file, part) =>
      var i := Find(ObjectNames(st.objects), file);
      if i < |st.objects| {
        var j := Find(PartNames(st.objects[i].parts), part);
        if j < |st.objects[i].parts| { PlaceKept(origin, st, i, j); }
      }
    case Malformed =>
    case Bytes(b) => BytesKept(origin, st, b);
  }

  lemma BytesKept<N(!new)>(origin: seq<Object<N>>, st: State<N>, b: seq<Byte>)
    requires Linked(origin, st)
    ensures Kept(origin, st, Execute(st, Bytes(b)))
  {
    FlatAdd(st.chunks, b);
    var to := Execute(st, Bytes(b));
    forall k: nat, l: nat | Has(to, k, l)
      ensures Has(st, k, l) && At(to, k, l) == At(st, k, l) && Key(to, k, l) == Key(st, k, l)
    {
    }
  }

  lemma {:induction false} RunKept<N(!new)>(origin: seq<Object<N>>, st: State<N>, script: seq<Command<N>>)
    requires Linked(origin, st)
    ensures Kept(origin, st, Run(st, script))
    ensures (exists c <- script :: c.AllFiles?) ==>
              forall k: nat, l: nat | Has(st, k, l) :: IsPlaced(Run(st, script), k, l)
    decreases |script|
  {
    if script != [] {
      var next, end := Execute(st, script[0]), Run(st, script);
      CommandKept(origin, st, script[0]);
      RunKept(origin, next, script[1..]);
      GrowsThen(st, next, end);
      if exists c <- script :: c.AllFiles? {
        forall k: nat, l: nat | Has(st, k, l) ensures IsPlaced(end, k, l) {
          assert Has(next, k, l);
          if script[0].AllFiles? { assert IsPlaced(next, k, l) && Key(next, k, l) in next.linked; }
        }
      }
    }
  }

  // ---- main results -------------------------------------------------------------------------

  /**
   For any script: a section has a base exactly if it is placed, its bytes stand there, no two placed
   sections overlap, and the address is the number of bytes. After `file *` every section is placed.
   */
  lemma ScriptPlaces<N(!new)>(origin: seq<Object<N>>, script: seq<Command<N>>)
    requires Compiled(origin)
    ensures var st := Run(Begin(origin), script);
            && SameShape(origin, st) && st.address == |Flat(st.chunks)| && Recorded(origin, st) && Apart(origin, st)
            && ((exists c <- script :: c.AllFiles?) ==> forall i: nat, j: nat | Has(st, i, j) :: IsPlaced(st, i, j))
  {
    RunKept(origin, Begin(origin), script);
  }

  /** A base once recorded is never changed by what follows: no section is placed twice. */
  lemma PlacedOnce<N(!new)>(origin: seq<Object<N>>, first: seq<Command<N>>, st: State<N>,
                   after: seq<Command<N>>, i: nat, j: nat)
    requires Compiled(origin) && st == Run(Begin(origin), first) && IsPlaced(st, i, j)
    ensures var end := Run(st, after);
            && IsPlaced(end, i, j) && Key(st, i, j) in st.linked && Key(end, i, j) in end.linked
            && Base(end, i, j) == Base(st, i, j) && Flat(st.chunks) <= Flat(end.chunks)
  {
    RunKept(origin, Begin(origin), first);
    RunKept(origin, st, after);
  }

  /** `file name section` succeeds exactly if there is such a section and it still has its data. */
  lemma OnePartIff<N(!new)>(origin: seq<Object<N>>, script: seq<Command<N>>, st: State<N>, file: N, part: N)
    requires Compiled(origin) && st == Run(Begin(origin), script)
    ensures Execute(st, OnePart(file, part)).errors == st.errors <==>
            exists i: nat, j: nat :: Has(st, i, j) && Key(st, i, j) == (file, part) && !IsPlaced(st, i, j)
  {
    RunKept(origin, Begin(origin), script);
    var i := Find(ObjectNames(st.objects), file);
    forall k: nat, l: nat | Has(st, k, l) && Key(st, k, l) == (file, part)
      ensures k == i && l == Find(PartNames(st.objects[i].parts), part)
    {
      SearchUnique(origin, st, k, l);
    }
    if i < |st.objects| && Find(PartNames(st.objects[i].parts), part) < |st.objects[i].parts| {
      assert Key(st, i, Find(PartNames(st.objects[i].parts), part)) == (file, part);
    }
  }

  /** A search by names finds a section where it is. */
  lemma SearchUnique<N(!new)>(origin: seq<Object<N>>, st: State<N>, k: nat, l: nat)
    requires Compiled(origin) && SameShape(origin, st) && Has(st, k, l)
    ensures Find(ObjectNames(st.objects), st.objects[k].name) == k
    ensures Find(PartNames(st.objects[k].parts), At(st, k, l).name) == l
  {
    var i := Find(ObjectNames(st.objects), st.objects[k].name);
    var j := Find(PartNames(st.objects[k].parts), At(st, k, l).name);
    assert ObjectNames(st.objects)[k] == st.objects[k].name;
    assert PartNames(st.objects[k].parts)[l] == At(st, k, l).name;
    assert i <= k && j <= l;
    KeyUnique(origin, st, k, j, k, l);
  }
}
