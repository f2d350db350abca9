/**
 The list behind every queue and stack of the assembler (src/util.c:233-283, 308-322): singly linked,
 with a pointer to the link that ends it.
 */
module LinkedList {
  import opened Wrappers

  class Cell<V> {
    var value: V
    var next: Cell?<V>

    constructor (value: V, next: Cell?<V>)
      ensures this.value == value && this.next == next
    {
      this.value, this.next := value, next;
    }
  }

  ghost predicate Chained<V>(cells: seq<Cell<V>>)
    reads cells
  {
    && (forall i: nat, j: nat | i < j < |cells| :: cells[i] != cells[j])
    && (forall i: nat | i + 1 < |cells| :: cells[i].next == cells[i + 1])
    && (cells != [] ==> cells[|cells| - 1].next == null)
  }

  ghost function Values<V>(cells: seq<Cell<V>>): seq<V>
    reads cells
  {
    seq(|cells|, i requires 0 <= i < |cells| reads cells => cells[i].value)
  }

  class List<V> {
    var size: nat
    var data: Cell?<V>
    /** The cell whose link ends the list; null stands for the link in the list itself. */
    var last: Cell?<V>
    ghost var cells: seq<Cell<V>>

    constructor ()
      ensures Valid() && fresh(cells) && Contents() == []
    {
      size, data, last, cells := 0, null, null, [];
    }

    ghost predicate Valid()
      reads this, cells
    {
      && Chained(cells) && size == |cells|
      && data == (if cells == [] then null else cells[0])
      && last == (if cells == [] then null else cells[|cells| - 1])
    }

    ghost function Contents(): seq<V>
      reads this, cells
    {
      Values(cells)
    }

    /** ll_append: through the pointer to the last link, without a walk. */
    method Append(value: V)
      requires Valid()
      modifies this, cells
      ensures Valid() && cells != [] && fresh(cells[|cells| - 1]) && cells == old(cells) + [cells[|cells| - 1]]
      ensures Contents() == old(Contents()) + [value]
    {
      var cell := new Cell(value, null);
      if last == null { data := cell; } else { last.next := cell; }
      last := cell;
      size := size + 1;
      cells := cells + [cell];
    }

    /** ll_prepend: only on an empty list does the last link move. */
    method Prepend(value: V)
      requires Valid()
      modifies this
      ensures Valid() && cells != [] && fresh(cells[0]) && cells == [cells[0]] + old(cells)
      ensures Contents() == [value] + old(Contents())
    {
      var cell := new Cell(value, data);
      var first := data == null;
      data := cell;
      size := size + 1;
      if first { last := cell; }
      cells := [cell] + cells;
    }

    /** ll_shift. */
    method Shift() returns (r: Option<V>)
      requires Valid()
      modifies this
      ensures Valid() && cells == if old(cells) == [] then [] else old(cells)[1..]
      ensures if old(Contents()) == [] then r == None && Contents() == []
              else r.Some? && old(Contents()) == [r.value] + Contents()
    {
      if size == 0 { return None; }
      size := size - 1;
      if size == 0 { last := null; }
      r := Some(data.value);
      data := data.next;
      cells := cells[1..];
    }

    /** ll_pop: the walk that finds the link to the last cell. */
    method Pop() returns (r: Option<V>)
      requires Valid()
      modifies this, cells
      ensures Valid() && cells == if old(cells) == [] then [] else old(cells)[..|old(cells)| - 1]
      ensures if old(Contents()) == [] then r == None && Contents() == []
              else r.Some? && old(Contents()) == Contents() + [r.value]
    {
      if size == 0 { return None; }
      size := size - 1;
      var before: Cell?<V>, cell: Cell<V> := null, data;
      ghost var i := 0;
      while cell.next != null
        invariant 0 <= i < |cells| && cell == cells[i]
        invariant before == if i == 0 then null else cells[i - 1]
        invariant cell.next == if i + 1 < |cells| then cells[i + 1] else null
        decreases |cells| - i
      {
        before, cell := cell, cell.next;
        i := i + 1;
      }
      r := Some(cell.value);
      last := before;
      if before == null { data := null; } else { before.next := null; }
      cells := cells[..|cells| - 1];
    }

    /** ll_free_to: the values in an array, in order. */
    method ToArray(blank: V) returns (a: array<V>)
      requires Valid()
      ensures fresh(a) && a[..] == Contents()
    {
      a := new V[size](_ => blank);
      var i, entry := 0, data;
      while entry != null
        invariant 0 <= i <= |cells| && entry == (if i < |cells| then cells[i] else null)
        invariant a[..i] == Contents()[..i]
        decreases |cells| - i
      {
        a[i] := entry.value;
        entry := entry.next;
        i := i + 1;
      }
    }
  }
}
