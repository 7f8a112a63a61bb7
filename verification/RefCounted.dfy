/** The hand-written reference-counted pointer: cells shared by handles, counted, freed by the last handle. */
module RefCounted {
  import opened Text

  /** A value allocated with `new T(value)`. */
  class Box<T> {
    var content: T
    ghost var owner: Cell?<T>   // the cell that holds it

    constructor (content: T)
      ensures this.content == content
    {
      this.content := content;
      owner := null;
    }
  }

  /** RefCountedPtrValue: the cell shared by all handles of one value. */
  class Cell<T> {
    var refcnt: nat
    var value: Box?<T>
    ghost var users: set<Handle<T>>   // the handles whose m_value is this cell

    constructor ()
      ensures refcnt == 0 && value == null && users == {}
    {
      refcnt := 0;
      value := null;
      users := {};
    }

    method Ref()
      modifies this`refcnt
      ensures refcnt == old(refcnt) + 1
    {
      refcnt := refcnt + 1;
    }

    /** Dropping the last count deletes the value; deleting NULL is harmless. */
    method Unref(memory: Memory<T>) returns (left: nat)
      requires refcnt == 1 && value != null ==> value in memory.boxes
      modifies this`refcnt, this`value, memory`boxes, memory`freed
      ensures left == refcnt == if old(refcnt) == 0 then 0 else old(refcnt) - 1
      ensures value == if old(refcnt) == 1 then null else old(value)
      ensures memory.boxes == old(memory.boxes) - (if old(refcnt) == 1 then old(Held()) else {})
      ensures memory.freed == old(memory.freed) + (if old(refcnt) == 1 then old(Held()) else {})
    {
      if refcnt > 0 {
        refcnt := refcnt - 1;
        if refcnt == 0 {
          if value != null {
            memory.DeleteBox(value);
          }
          value := null;
        }
      }
      left := refcnt;
    }

    ghost function Held(): set<Box<T>>
      reads this
    {
      if value != null then {value} else {}
    }

    method Set(box: Box<T>)
      modifies this`refcnt, this`value
      ensures refcnt == 1 && value == box
    {
      refcnt := 1;
      value := box;
    }
  }

  /** What one handle shows its owner. */
  datatype Reading<T> = Fresh | Released | Holds(content: T)

  /** What the allocator has handed out: every delete must name something still allocated. */
  class Memory<T> {
    var cells: set<Cell<T>>
    var boxes: set<Box<T>>
    var freed: set<Box<T>>
    var handles: set<Handle<T>>                  // constructed and not destroyed
    ghost var shown: map<Handle<T>, Reading<T>>  // what each of them shows

    constructor ()
      ensures Valid() && cells == {} && boxes == {} && freed == {} && handles == {}
    {
      cells, boxes, freed, handles := {}, {}, {}, {};
      shown := map[];
    }

    /** Every value there has been. */
    ghost function Ever(): set<Box<T>>
      reads `boxes, `freed
    {
      boxes + freed
    }

    method DeleteBox(box: Box<T>)
      requires box in boxes
      modifies this`boxes, this`freed
      ensures boxes == old(boxes) - {box} && freed == old(freed) + {box}
    {
      boxes := boxes - {box};
      freed := freed + {box};
    }

    method DeleteCell(cell: Cell<T>)
      requires cell in cells
      modifies this`cells
      ensures cells == old(cells) - {cell}
    {
      cells := cells - {cell};
    }

    ghost predicate HandleOk(h: Handle<T>)
      reads this, h, cells, boxes
    {
      && (h.cell != null ==>
           h.cell in cells && h in h.cell.users && (h.cell.value != null ==> h.cell.value in boxes))
      && h in shown && shown[h] == h.Shows()
    }

    /** A cell of a default-constructed handle has count 0 and one user; any other cell holds an allocated value
        of its own and counts its users. */
    ghost predicate CellOk(c: Cell<T>)
      reads this, c, handles, boxes
    {
      && |c.users| == (if c.refcnt == 0 then 1 else c.refcnt)
      && (forall h :: h in c.users ==> h in handles && h.cell == c)
      && (c.refcnt == 0 <==> c.value == null)
      && (c.value != null ==> c.value in boxes && c.value.owner == c)
    }

    ghost predicate BoxOk(b: Box<T>)
      reads this, b, cells
    {
      b.owner != null && b.owner in cells && b.owner.value == b
    }

    ghost predicate Valid()
      reads this, handles, cells, boxes
    {
      && shown.Keys == handles
      && (forall h :: h in handles ==> HandleOk(h))
      && (forall c :: c in cells ==> CellOk(c))
      && (forall b :: b in boxes ==> BoxOk(b))
      && boxes !! freed
    }

    /** The count of a non-empty cell is the number of handles on it. */
    lemma CountIsNumberOfHandles(c: Cell<T>)
      requires Valid() && c in cells && c.value != null
      ensures c.refcnt == |set h | h in handles && h.cell == c|
    {
      assert CellOk(c);
      assert c.users == set h | h in handles && h.cell == c by {
        forall h | h in handles && h.cell == c ensures h in c.users {
          assert HandleOk(h);
        }
      }
    }

    lemma ShownIsRead(h: Handle<T>)
      requires Valid() && h in handles
      ensures h in shown && shown[h] == h.Shows() && h.Sane(this)
    {
    }

    lemma HeldIsOwn(h: Handle<T>)
      requires Valid() && h in handles && h.Shows().Holds?
      ensures h.cell != null && h.cell in cells && h.cell.value != null && h.cell.value in boxes
    {
    }

    lemma FreshCountsNobody(h: Handle<T>)
      requires Valid() && h in handles
      ensures h.Shows() == Fresh <==> h.cell != null && h.cell.refcnt == 0
    {
      assert HandleOk(h);
      assert h.cell != null ==> CellOk(h.cell);
    }

    lemma EveryCellHasAUser(c: Cell<T>)
      requires Valid() && c in cells
      ensures exists h :: h in handles && h.cell == c
    {
    }

    /** A value is allocated or deleted, not both. */
    lemma NeverBoth()
      requires Valid()
      ensures |Ever()| == |boxes| + |freed|
    {
    }

    /** Nothing stays allocated once the last handle is gone. */
    lemma NothingLeft()
      requires Valid() && handles == {}
      ensures cells == {} && boxes == {}
    {
    }
  }

  /** RefCountedPtr: one handle. */
  class Handle<T> {
    var cell: Cell?<T>

    ghost predicate Usable(memory: Memory<T>)
      reads this, memory, memory.handles, memory.cells, memory.boxes
    {
      memory.Valid() && this in memory.handles
    }

    function Shows(): Reading<T>
      reads this, cell, if cell != null then cell.value else null
    {
      if cell == null then Released else if cell.value == null then Fresh else Holds(cell.value.content)
    }

    /** The only handle on its cell: letting go of it frees the value. */
    ghost predicate Last(memory: Memory<T>)
      reads this, memory, memory.handles
    {
      cell != null && forall h :: h in memory.handles && h != this ==> h.cell != cell
    }

    /** What goes with this handle: its value, if it is the last handle on it. */
    ghost function Going(memory: Memory<T>): (gone: set<Box<T>>)
      requires Usable(memory)
      reads this, cell, memory, memory.handles, memory.cells, memory.boxes
      ensures gone <= memory.boxes
    {
      assert memory.HandleOk(this);
      if Last(memory) then Held() else {}
    }

    ghost function Held(): set<Box<T>>
      reads this, cell
    {
      if cell != null then cell.Held() else {}
    }

    constructor (memory: Memory<T>)
      requires memory.Valid()
      modifies memory`cells, memory`handles, memory`shown
      ensures Usable(memory) && memory.shown == old(memory.shown)[this := Fresh]
      ensures memory.handles == old(memory.handles) + {this}
      ensures fresh(memory.cells - old(memory.cells))
    {
      cell := null;
      new;
      hide Memory.Valid;
      Enlist(memory);
      NewCell(memory);
    }

    /** m_value(new RefCountedPtrValue<T>()) */
    method NewCell(memory: Memory<T>)
      requires Usable(memory) && cell == null
      modifies this`cell, memory`cells, memory`shown
      ensures Usable(memory) && cell != null && fresh(cell) && cell.users == {this} && cell.value == null
      ensures memory.cells == old(memory.cells) + {cell}
      ensures memory.shown == old(memory.shown)[this := Fresh]
    {
      hide Memory.Valid;
      var c := new Cell<T>();
      c.users := {this};
      cell := c;
      memory.cells := memory.cells + {c};
      memory.shown := memory.shown[this := Fresh];
      ValidWithCell(memory);
    }

    /** From the old state to this one, this handle has got an empty cell of its own. */
    twostate lemma ValidWithCell(memory: Memory<T>)
      requires old(memory.Valid()) && this in old(memory.handles) && old(cell) == null
      requires cell != null && cell !in old(memory.cells)
      requires cell.users == {this} && cell.refcnt == 0 && cell.value == null
      requires memory.cells == old(memory.cells) + {cell} && memory.handles == old(memory.handles)
      requires memory.boxes == old(memory.boxes) && memory.freed == old(memory.freed)
      requires memory.shown == old(memory.shown)[this := Fresh]
      requires forall h | h in old(memory.handles) && h != this :: unchanged(h)
      requires forall d | d in old(memory.cells) :: unchanged(d)
      requires forall b | b in old(memory.boxes) :: unchanged(b)
      ensures memory.Valid()
    {
      forall d | d in memory.cells ensures memory.CellOk(d) {
        hide Memory.HandleOk, Memory.BoxOk;
        assert d != cell ==> old(memory.CellOk(d));
      }
      forall h | h in memory.handles ensures memory.HandleOk(h) {
        hide Memory.CellOk, Memory.BoxOk;
        assert h != this ==> old(memory.HandleOk(h));
      }
      forall b | b in memory.boxes ensures memory.BoxOk(b) {
        hide Memory.CellOk, Memory.HandleOk;
        assert old(memory.BoxOk(b));
      }
    }

    /** The copy constructor takes any handle. It keeps the memory valid exactly when the source is not a
        default-constructed one, whose cell counts nobody. */
    constructor Copy(memory: Memory<T>, copy: Handle<T>)
      requires copy.Usable(memory)
      modifies memory`handles, memory`shown, copy.cell
      ensures memory.Valid() <==> old(copy.Shows()) != Fresh
      ensures memory.shown == old(memory.shown)[this := old(copy.Shows())] && cell == copy.cell == old(copy.cell)
      ensures memory.handles == old(memory.handles) + {this}
      ensures cell != null ==>
        cell in memory.cells && cell.refcnt == old(copy.cell.refcnt) + 1 && cell.value == old(copy.cell.value)
    {
      cell := null;
      new;
      hide Memory.Valid;
      Enlist(memory);
      assert this != copy;
      memory.ShownIsRead(copy);
      if copy.cell != null {
        Join(memory, copy);
      }
    }

    method Enlist(memory: Memory<T>)
      requires memory.Valid() && cell == null && this !in memory.handles
      modifies memory`handles, memory`shown
      ensures Usable(memory) && memory.handles == old(memory.handles) + {this}
      ensures memory.shown == old(memory.shown)[this := Released]
    {
      memory.handles := memory.handles + {this};
      memory.shown := memory.shown[this := Released];
      forall d | d in memory.cells ensures memory.CellOk(d) {
        assert old(memory.CellOk(d));
      }
      forall h | h in memory.handles ensures memory.HandleOk(h) {
        assert h != this ==> old(memory.HandleOk(h));
      }
      forall b | b in memory.boxes ensures memory.BoxOk(b) {
        assert old(memory.BoxOk(b));
      }
    }

    /** m_value(copy.m_value) and ref() on it. */
    method Join(memory: Memory<T>, copy: Handle<T>)
      requires Usable(memory) && cell == null && copy in memory.handles && copy.cell != null
      modifies this`cell, memory`shown, copy.cell
      ensures memory.Valid() <==> old(copy.Shows()) != Fresh
      ensures cell == copy.cell == old(copy.cell) && cell in memory.cells
      ensures cell.refcnt == old(copy.cell.refcnt) + 1 && cell.value == old(copy.cell.value)
      ensures memory.shown == old(memory.shown)[this := old(copy.Shows())]
    {
      assert memory.HandleOk(copy) && memory.CellOk(copy.cell);
      assert this !in copy.cell.users;
      hide Memory.Valid;
      ghost var c: Cell<T> := copy.cell;
      cell := copy.cell;
      cell.Ref();
      cell.users := cell.users + {this};
      memory.shown := memory.shown[this := copy.Shows()];
      JoinedIsValid(memory);
    }

    /** From the old state to this one, the cell has got one more user, counted, and nothing else has happened. */
    twostate predicate Joined(memory: Memory<T>)
      reads *
    {
      && old(memory.Valid()) && this in old(memory.handles) && old(cell) == null
      && cell != null && cell in old(memory.cells)
      && var c: Cell<T> := cell;
      && memory.cells == old(memory.cells) && memory.handles == old(memory.handles)
      && memory.boxes == old(memory.boxes) && memory.freed == old(memory.freed)
      && c.value == old(c.value)
      && c.refcnt == old(c.refcnt) + 1 && c.users == old(c.users) + {this}
      && memory.shown == old(memory.shown)[this := Shows()]
      && (forall h | h in memory.handles && h != this :: h.cell == old(h.cell))
      && (forall d | d in memory.cells && d != c :: unchanged(d))
      && (forall b | b in memory.boxes :: unchanged(b))
    }

    twostate lemma JoinedIsValid(memory: Memory<T>)
      requires Joined(memory)
      ensures memory.Valid() <==> cell.value != null
    {
      var c: Cell<T> := cell;
      assert old(memory.CellOk(c));
      if c.value == null {
        assert !memory.CellOk(c);
      } else {
        CountedIsValid(memory);
      }
    }

    twostate lemma CountedIsValid(memory: Memory<T>)
      requires Joined(memory) && cell.value != null
      ensures memory.Valid()
    {
      var c: Cell<T> := cell;
      assert old(memory.CellOk(c)) && old(memory.HandleOk(this));
      forall d | d in memory.cells ensures memory.CellOk(d) {
        assert old(memory.CellOk(d));
      }
      forall h | h in memory.handles ensures memory.HandleOk(h) {
        assert old(memory.HandleOk(h));
      }
      forall b | b in memory.boxes ensures memory.BoxOk(b) {
        assert old(memory.BoxOk(b));
      }
    }

    /** get(): dereferencing the result needs a handle that holds a value. */
    method Get() returns (box: Box?<T>)
      requires cell != null
      ensures box == cell.value && (box != null <==> Shows().Holds?)
      ensures box != null ==> Shows() == Holds(box.content)
    {
      box := cell.value;
    }

    method Empty() returns (empty: bool)
      ensures empty <==> !Shows().Holds?
    {
      empty := cell == null || cell.value == null;
    }

    lemma LastIffOneUser(memory: Memory<T>)
      requires Usable(memory) && cell != null
      ensures cell in memory.cells && this in cell.users
      ensures Last(memory) <==> cell.users == {this}
      ensures cell.users == {this} <==> cell.refcnt <= 1
    {
      assert memory.HandleOk(this);
      assert memory.CellOk(cell);
      if cell.users == {this} {
        forall h | h in memory.handles && h != this ensures h.cell != cell {
          assert memory.HandleOk(h);
        }
      }
      if Last(memory) {
        assert cell.users == {this};
      }
      if |cell.users| == 1 {
        assert |cell.users - {this}| == 0;
        assert cell.users == {this};
      }
    }

    /** What dropping one count of the cell deletes. */
    ghost function Doomed(): set<Box<T>>
      reads this, cell
    {
      if cell != null && cell.refcnt == 1 then cell.Held() else {}
    }

    /** What a statement on this handle needs of the memory to be executed at all. */
    ghost predicate Sane(memory: Memory<T>)
      reads this, memory, cell
    {
      cell != null ==> cell in memory.cells && (cell.value != null ==> cell.value in memory.boxes)
    }

    /** release() as it stands. */
    method LetGo(memory: Memory<T>)
      requires Sane(memory)
      modifies this`cell, cell, memory`boxes, memory`freed, memory`cells
      ensures cell == null
      ensures old(cell) == null ==>
        memory.cells == old(memory.cells) && memory.boxes == old(memory.boxes) && memory.freed == old(memory.freed)
      ensures old(cell) != null ==>
        var c, last := old(cell), old(cell.refcnt) <= 1;
        && c.refcnt == (if last then 0 else old(cell.refcnt) - 1) && c.users == old(cell.users) - {this}
        && c.value == (if old(cell.refcnt) == 1 then null else old(cell.value))
        && memory.cells == old(memory.cells) - (if last then {c} else {})
        && memory.boxes == old(memory.boxes) - old(Doomed()) && memory.freed == old(memory.freed) + old(Doomed())
    {
      if cell != null {
        var left := cell.Unref(memory);
        cell.users := cell.users - {this};
        if left == 0 {
          memory.DeleteCell(cell);
        }
      }
      cell := null;
    }

    /** set() as it stands. */
    method Assign(memory: Memory<T>, content: T)
      requires Sane(memory)
      modifies this`cell, cell, memory`boxes, memory`freed, memory`cells
      ensures cell != null && cell.refcnt == 1 && cell.value != null && fresh(cell.value)
      ensures cell.value.content == content && cell.value.owner == cell
      ensures
        var keep := old(cell) != null && old(cell.refcnt) <= 1;
        && (if keep then cell == old(cell) && cell.users == old(cell.users) else fresh(cell) && cell.users == {this})
        && memory.cells == old(memory.cells) + {cell}
        && memory.boxes == old(memory.boxes) - old(Doomed()) + {cell.value}
        && memory.freed == old(memory.freed) + old(Doomed())
      ensures old(cell) != null && old(cell.refcnt) > 1 ==>
        var c := old(cell);
        && c != cell && c.refcnt == old(cell.refcnt) - 1
        && c.value == old(cell.value) && c.users == old(cell.users) - {this}
    {
      var left := 1;
      if cell != null {
        left := cell.Unref(memory);
      }
      if left != 0 {
        if cell != null {
          cell.users := cell.users - {this};
        }
        cell := new Cell<T>();
        cell.users := {this};
        memory.cells := memory.cells + {cell};
      }
      var box := new Box(content);
      box.owner := cell;
      memory.boxes := memory.boxes + {box};
      cell.Set(box);
    }

    /** From the old state to this one, this handle has let go of its cell and has none, or one of its own with a
        new value, and nothing else has happened. */
    twostate predicate Moved(memory: Memory<T>)
      reads *
    {
      var c := old(cell);
      var last := c != null && old(c.refcnt) <= 1;
      && old(memory.Valid()) && this in old(memory.handles) && memory.handles == old(memory.handles)
      && memory.cells == old(memory.cells) - (if last then {c} else {}) + (if cell != null then {cell} else {})
      && old(Doomed()) <= old(memory.boxes)
      && memory.boxes == old(memory.boxes) - old(Doomed()) + Held()
      && memory.freed == old(memory.freed) + old(Doomed())
      && memory.shown == old(memory.shown)[this := Shows()]
      && (c != null ==> old(memory.CellOk(c)))
      && (last ==> old(c.users) == {this})
      && (c != null && !last ==> c in memory.cells && Shared(c))
      && (cell != null ==> (cell == c ==> last) && (cell != c ==> cell !in old(memory.cells)) && Owned(memory))
      && Untouched(memory)
    }

    twostate predicate Untouched(memory: Memory<T>)
      reads *
      requires forall h | h in memory.handles :: h in old(memory.handles)
      requires forall d | d in memory.cells && d != cell :: d in old(memory.cells)
      requires forall b | b in memory.boxes && b !in Held() :: b in old(memory.boxes)
    {
      && (forall h | h in memory.handles && h != this :: h.cell == old(h.cell))
      && (forall d | d in memory.cells && d != old(cell) && d != cell :: unchanged(d))
      && (forall b | b in memory.boxes && b !in Held() :: b.owner == old(b.owner) && b.content == old(b.content))
    }

    twostate predicate Shared(c: Cell<T>)
      reads this, c
    {
      && c != cell && this in old(c.users)
      && c.refcnt == old(c.refcnt) - 1 && c.value == old(c.value) && c.users == old(c.users) - {this}
    }

    twostate predicate Owned(memory: Memory<T>)
      reads *
    {
      && cell != null && cell.refcnt == 1 && cell.users == {this}
      && cell.value != null && cell.value.owner == cell
      && cell.value !in old(memory.boxes) && cell.value !in old(memory.freed)
    }

    twostate lemma MovedOthers(memory: Memory<T>)
      requires Moved(memory)
      ensures forall d :: d in memory.cells && d != cell && d != old(cell) ==> memory.CellOk(d)
    {
      hide Memory.BoxOk, Memory.HandleOk, Handle.Shows;
      var c := old(cell);
      forall d | d in memory.cells && d != cell && d != c ensures memory.CellOk(d) {
        assert d in old(memory.cells) && unchanged(d) && old(memory.CellOk(d));
        assert this !in d.users;
        assert forall h :: h in d.users ==> h in memory.handles && h.cell == d;
        if d.value != null {
          assert d.value !in old(Doomed()) && d.value !in Held();
          assert d.value in memory.boxes && d.value.owner == d;
        }
      }
    }

    twostate lemma MovedOwn(memory: Memory<T>)
      requires Moved(memory)
      ensures cell != null ==> memory.CellOk(cell)
    {
      hide Memory.Valid, Memory.CellOk, Memory.HandleOk, Memory.BoxOk, Handle.Untouched, Handle.Shared;
      if cell != null {
        OwnCellOk(memory);
      }
    }

    lemma OwnCellOk(memory: Memory<T>)
      requires cell != null && cell.refcnt == 1 && cell.users == {this} && this in memory.handles
      requires cell.value != null && cell.value in memory.boxes && cell.value.owner == cell
      ensures memory.CellOk(cell)
    {
      assert |{this}| == 1;
    }

    twostate lemma MovedShared(memory: Memory<T>)
      requires Moved(memory)
      ensures old(cell) != null && old(cell) != cell && old(cell) in memory.cells ==> memory.CellOk(old(cell))
    {
      hide Memory.Valid, Memory.HandleOk, Memory.BoxOk, Handle.Shows;
      var c := old(cell);
      if c != null && c != cell && c in memory.cells {
        assert old(memory.CellOk(c)) && Shared(c);
        assert |old(c.users) - {this}| == |old(c.users)| - 1;
        assert old(Doomed()) == {} && c.value in memory.boxes && c.value !in Held();
      }
    }

    twostate lemma MovedCells(memory: Memory<T>)
      requires Moved(memory)
      ensures forall d :: d in memory.cells ==> memory.CellOk(d)
    {
      hide Memory.CellOk, Memory.Valid;
      MovedOthers(memory);
      MovedOwn(memory);
      MovedShared(memory);
    }

    twostate lemma MovedHandles(memory: Memory<T>)
      requires Moved(memory)
      ensures forall h :: h in memory.handles ==> memory.HandleOk(h)
    {
      var c := old(cell);
      assert old(memory.HandleOk(this));
      assert c != null ==> old(memory.CellOk(c));
      forall h | h in memory.handles ensures memory.HandleOk(h) {
        assert old(memory.HandleOk(h));
        if h != this && h.cell != null {
          assert old(memory.CellOk(h.cell));
        }
      }
    }

    twostate lemma MovedBoxes(memory: Memory<T>)
      requires Moved(memory)
      ensures forall b :: b in memory.boxes ==> memory.BoxOk(b)
    {
      var c := old(cell);
      assert old(memory.HandleOk(this));
      assert c != null ==> old(memory.CellOk(c));
      forall b | b in memory.boxes ensures memory.BoxOk(b) {
        hide Memory.HandleOk, Handle.Shows;
        if b !in Held() {
          assert old(memory.BoxOk(b)) && b.owner == old(b.owner) && b !in old(Doomed());
          assert b.owner != cell ==> b.owner in memory.cells;
        }
      }
    }

    twostate lemma MovedIsValid(memory: Memory<T>)
      requires Moved(memory)
      ensures memory.Valid()
    {
      hide Memory.CellOk, Memory.HandleOk, Memory.BoxOk;
      MovedCells(memory);
      MovedHandles(memory);
      MovedBoxes(memory);
      assert memory.shown.Keys == memory.handles;
      assert memory.boxes !! memory.freed;
    }

    /** release(): the value is freed exactly when this was its last handle. */
    method Release(memory: Memory<T>)
      requires Usable(memory)
      modifies this, cell, memory`boxes, memory`freed, memory`cells, memory`shown
      ensures Usable(memory) && memory.shown == old(memory.shown)[this := Released]
      ensures cell == null && memory.cells <= old(memory.cells)
      ensures memory.freed == old(memory.freed) + old(Going(memory))
      ensures memory.boxes == old(memory.boxes) - old(Going(memory))
    {
      hide Memory.Valid, Handle.Doomed, Handle.Last, Handle.Moved, Handle.Going;
      Ready(memory);
      Leave(memory);
      MovedIsValid(memory);
      WhatMoved(memory);
    }

    method Leave(memory: Memory<T>)
      requires Usable(memory)
      modifies this, cell, memory`boxes, memory`freed, memory`cells, memory`shown
      ensures Moved(memory) && cell == null && Shows() == Released && Held() == {}
      ensures memory.cells <= old(memory.cells)
    {
      ghost var c, last := cell, cell != null && cell.refcnt <= 1;
      Ready(memory);
      hide Memory.Valid, Memory.CellOk, Memory.HandleOk, Memory.BoxOk, Handle.Doomed, Handle.Last, Handle.Going;
      LetGo(memory);
      memory.shown := memory.shown[this := Released];
      if c != null && !last {
        assert Shared(c);
      }
      hide Handle.Shared;
      assert memory.cells == old(memory.cells) - (if last then {c} else {});
      assert memory.boxes == old(memory.boxes) - old(Doomed()) && memory.freed == old(memory.freed) + old(Doomed());
      assert Untouched(memory);
    }

    /** What the counts say before this handle moves. */
    lemma Ready(memory: Memory<T>)
      requires Usable(memory)
      ensures Sane(memory) && this in memory.shown
      ensures cell != null ==>
        && cell in memory.cells && this in cell.users
        && (Last(memory) <==> cell.users == {this}) && (cell.users == {this} <==> cell.refcnt <= 1)
      ensures Doomed() == Going(memory) <= memory.boxes && (cell == null ==> Doomed() == {})
      ensures cell != null ==> memory.CellOk(cell)
    {
      assert memory.HandleOk(this);
      if cell != null {
        assert memory.CellOk(cell);
        LastIffOneUser(memory);
      }
    }

    /** set(): the handle shows the new value and what other handles show is unchanged; the old value is freed
        exactly when this was its last handle. */
    method Set(memory: Memory<T>, content: T)
      requires Usable(memory)
      modifies this, cell, memory`boxes, memory`freed, memory`cells, memory`shown
      ensures Usable(memory) && memory.shown == old(memory.shown)[this := Holds(content)]
      ensures memory.freed == old(memory.freed) + old(Going(memory))
      ensures cell != null && cell.value != null && fresh(cell.value)
      ensures memory.boxes == old(memory.boxes) - old(Going(memory)) + {cell.value}
      ensures fresh(memory.cells - old(memory.cells))
    {
      hide Memory.Valid, Handle.Doomed, Handle.Last, Handle.Moved, Handle.Going;
      Ready(memory);
      Move(memory, content);
      MovedIsValid(memory);
      WhatMoved(memory);
    }

    twostate lemma WhatMoved(memory: Memory<T>)
      requires Moved(memory)
      ensures memory.shown == old(memory.shown)[this := Shows()]
      ensures memory.freed == old(memory.freed) + old(Doomed())
      ensures memory.boxes == old(memory.boxes) - old(Doomed()) + Held()
    {
    }

    method Move(memory: Memory<T>, content: T)
      requires Usable(memory)
      modifies this, cell, memory`boxes, memory`freed, memory`cells, memory`shown
      ensures Moved(memory) && Shows() == Holds(content)
      ensures cell != null && cell.value != null && fresh(cell.value) && Held() == {cell.value}
      ensures fresh(memory.cells - old(memory.cells))
    {
      Ready(memory);
      hide Memory.Valid, Memory.CellOk, Handle.Doomed, Handle.Last, Handle.Going;
      Assign(memory, content);
      memory.shown := memory.shown[this := Holds(content)];
      assert Owned(memory);
      hide Handle.Owned;
    }

    /** A change made through the pointer get() returns: every handle on the cell shows it. */
    method Change(memory: Memory<T>, content: T)
      requires Usable(memory) && Shows().Holds?
      modifies cell.value`content, memory`shown
      ensures Usable(memory) && cell.value.content == content
      ensures memory.shown.Keys == old(memory.shown).Keys
      ensures forall h :: h in memory.handles ==>
        memory.shown[h] == if h.cell == cell then Holds(content) else old(memory.shown)[h]
    {
      ghost var before := memory.shown;
      cell.value.content := content;
      memory.shown := map h | h in before :: if h.cell == cell then Holds(content) else before[h];
      forall d | d in memory.cells ensures memory.CellOk(d) {
        assert old(memory.CellOk(d));
      }
      assert old(memory.HandleOk(this));
      assert old(memory.CellOk(cell));
      forall h | h in memory.handles ensures memory.HandleOk(h) {
        assert old(memory.HandleOk(h));
        assert h.cell != null ==> old(memory.CellOk(h.cell));
      }
      forall b | b in memory.boxes ensures memory.BoxOk(b) {
        assert old(memory.BoxOk(b));
      }
    }

    /** The destructor. */
    method Destroy(memory: Memory<T>)
      requires Usable(memory)
      modifies this, cell, memory
      ensures memory.Valid() && memory.handles == old(memory.handles) - {this} && memory.cells <= old(memory.cells)
      ensures memory.shown == old(memory.shown) - {this}
      ensures memory.freed == old(memory.freed) + old(Going(memory))
      ensures memory.boxes == old(memory.boxes) - old(Going(memory))
    {
      Release(memory);
      Forget(memory);
    }

    method Forget(memory: Memory<T>)
      requires Usable(memory) && cell == null
      modifies memory`handles, memory`shown
      ensures memory.Valid() && memory.handles == old(memory.handles) - {this}
      ensures memory.shown == old(memory.shown) - {this}
    {
      memory.handles := memory.handles - {this};
      memory.shown := memory.shown - {this};
      forall d | d in memory.cells ensures memory.CellOk(d) {
        assert old(memory.CellOk(d));
      }
      forall h | h in memory.handles ensures memory.HandleOk(h) {
        assert old(memory.HandleOk(h));
      }
      forall b | b in memory.boxes ensures memory.BoxOk(b) {
        assert old(memory.BoxOk(b));
      }
    }
  }

  /** What goes wrong with a copy of a default-constructed handle: set() on the copy shows through the source, and
      once the copy has been released the source is left with a cell that has been deleted. */
  method CopyOfFreshHandle<T>(content: T) returns (source: Reading<T>, afterwards: Reading<T>, dangling: bool)
    ensures source == Fresh && afterwards == Holds(content) && dangling
  {
    hide Memory.Valid;
    var memory := new Memory<T>();
    var h := new Handle<T>(memory);
    memory.ShownIsRead(h);
    memory.FreshCountsNobody(h);
    source := h.Shows();
    var copy := new Handle<T>.Copy(memory, h);
    copy.Assign(memory, content);
    afterwards := h.Shows();
    copy.LetGo(memory);
    dangling := h.cell != null && h.cell !in memory.cells;
  }

  // ---------------------------------------------------------------- any history over any number of handles

  datatype Op<T> =
    | Construct(n: nat)
    | CopyFrom(n: nat, source: nat)
    | SetTo(n: nat, content: T)
    | Release(n: nat)
    | Destroy(n: nat)

  /** The sharing-free meaning: every name has a reading of its own. An operation that C++ or the counting
      discipline rules out (a name in use, an unknown name, a copy of a fresh handle) is skipped. */
  function Step<T>(a: map<nat, Reading<T>>, op: Op<T>): map<nat, Reading<T>> {
    match op
    case Construct(n) => if n in a then a else a[n := Fresh]
    case CopyFrom(n, source) => if n in a || source !in a || a[source].Fresh? then a else a[n := a[source]]
    case SetTo(n, content) => if n in a then a[n := Holds(content)] else a
    case Release(n) => if n in a then a[n := Released] else a
    case Destroy(n) => a - {n}
  }

  /** How many values the history creates: one for each set() on a handle there is. */
  function Sets<T>(ops: seq<Op<T>>): nat {
    if ops == [] then 0
    else
      var n := |ops| - 1;
      Sets(ops[..n]) + if ops[n].SetTo? && ops[n].n in Run(ops[..n]) then 1 else 0
  }

  function Run<T>(ops: seq<Op<T>>): map<nat, Reading<T>> {
    if ops == [] then map[] else Step(Run(ops[..|ops| - 1]), ops[|ops| - 1])
  }

  /** Different names have different handles, these are all the handles there are, and each shows what its name
      should read. */
  ghost predicate Names<T>(table: map<nat, Handle<T>>, shown: map<Handle<T>, Reading<T>>, a: map<nat, Reading<T>>) {
    && table.Keys == a.Keys
    && table.Values == shown.Keys
    && (forall n, m :: n in table && m in table && n != m ==> table[n] != table[m])
    && (forall n :: n in table ==> shown[table[n]] == a[n])
  }

  ghost predicate Tracks<T>(table: map<nat, Handle<T>>, memory: Memory<T>, a: map<nat, Reading<T>>)
    reads memory, memory.handles, memory.cells, memory.boxes
  {
    memory.Valid() && memory.shown.Keys == memory.handles && Names(table, memory.shown, a)
  }

  lemma EverStays<T>(boxes: set<Box<T>>, freed: set<Box<T>>, gone: set<Box<T>>)
    requires gone <= boxes
    ensures boxes - gone + (freed + gone) == boxes + freed
  {
  }

  lemma EverGrows<T>(boxes: set<Box<T>>, freed: set<Box<T>>, gone: set<Box<T>>, box: Box<T>)
    requires gone <= boxes && box !in boxes && box !in freed
    ensures |boxes - gone + {box} + (freed + gone)| == |boxes + freed| + 1
  {
    assert boxes - gone + {box} + (freed + gone) == boxes + freed + {box};
  }

  lemma NameIsShown<T>(table: map<nat, Handle<T>>, shown: map<Handle<T>, Reading<T>>, a: map<nat, Reading<T>>, n: nat)
    requires Names(table, shown, a)
    ensures n in table <==> n in a
    ensures n in table ==> table[n] in shown && shown[table[n]] == a[n]
  {
  }

  lemma AddName<T>(table: map<nat, Handle<T>>, shown: map<Handle<T>, Reading<T>>, a: map<nat, Reading<T>>,
                   n: nat, h: Handle<T>, r: Reading<T>)
    requires Names(table, shown, a) && n !in table && h !in shown
    ensures Names(table[n := h], shown[h := r], a[n := r])
  {
    var table' := table[n := h];
    forall x | x in table.Values + {h} ensures x in table'.Values {
      if x == h {
        assert table'[n] == x;
      } else {
        var m :| m in table && table[m] == x;
        assert table'[m] == x;
      }
    }
  }

  lemma ChangeName<T>(table: map<nat, Handle<T>>, shown: map<Handle<T>, Reading<T>>, a: map<nat, Reading<T>>,
                      n: nat, r: Reading<T>)
    requires Names(table, shown, a) && n in table
    ensures Names(table, shown[table[n] := r], a[n := r])
  {
  }

  lemma RemoveName<T>(table: map<nat, Handle<T>>, shown: map<Handle<T>, Reading<T>>, a: map<nat, Reading<T>>, n: nat)
    requires Names(table, shown, a) && n in table
    ensures Names(table - {n}, shown - {table[n]}, a - {n})
  {
    var table' := table - {n};
    forall x | x in table.Values - {table[n]} ensures x in table'.Values {
      var m :| m in table && table[m] == x;
      assert table'[m] == x;
    }
  }

  method Apply<T>(table: map<nat, Handle<T>>, memory: Memory<T>, ghost a: map<nat, Reading<T>>, op: Op<T>)
    returns (table': map<nat, Handle<T>>)
    requires Tracks(table, memory, a)
    modifies memory, memory.handles, memory.cells
    ensures Tracks(table', memory, Step(a, op))
    ensures fresh(memory.handles - old(memory.handles)) && fresh(memory.cells - old(memory.cells))
    ensures |memory.Ever()| == old(|memory.Ever()|) + if op.SetTo? && op.n in a then 1 else 0
  {
    hide Memory.Valid, Memory.Ever;
    table' := table;
    match op
    case Construct(n) =>
      if n !in table {
        table' := ApplyConstruct(table, memory, a, n);
      }
    case CopyFrom(n, source) =>
      if n !in table && source in table {
        table' := ApplyCopy(table, memory, a, n, source);
      }
    case SetTo(n, content) =>
      if n in table {
        ApplySet(table, memory, a, n, content);
      }
    case Release(n) =>
      if n in table {
        ApplyRelease(table, memory, a, n);
      }
    case Destroy(n) =>
      if n in table {
        table' := ApplyDestroy(table, memory, a, n);
      } else {
        assert a - {n} == a;
      }
  }

  method ApplyConstruct<T>(table: map<nat, Handle<T>>, memory: Memory<T>, ghost a: map<nat, Reading<T>>, n: nat)
    returns (table': map<nat, Handle<T>>)
    requires Tracks(table, memory, a) && n !in table
    modifies memory
    ensures Tracks(table', memory, Step(a, Construct(n)))
    ensures fresh(memory.handles - old(memory.handles)) && fresh(memory.cells - old(memory.cells))
    ensures memory.Ever() == old(memory.Ever())
  {
    hide Names, Memory.Valid;
    NameIsShown(table, memory.shown, a, n);
    var h := new Handle<T>(memory);
    table' := table[n := h];
    AddName(table, old(memory.shown), a, n, h, Fresh);
  }

  method ApplyCopy<T>(table: map<nat, Handle<T>>, memory: Memory<T>, ghost a: map<nat, Reading<T>>, n: nat, source: nat)
    returns (table': map<nat, Handle<T>>)
    requires Tracks(table, memory, a) && n !in table && source in table
    modifies memory, memory.cells
    ensures Tracks(table', memory, Step(a, CopyFrom(n, source)))
    ensures fresh(memory.handles - old(memory.handles)) && memory.cells == old(memory.cells)
    ensures memory.Ever() == old(memory.Ever())
  {
    hide Names, Memory.Valid, Memory.Ever;
    NameIsShown(table, memory.shown, a, n);
    table' := table;
    NameIsShown(table, memory.shown, a, source);
    memory.ShownIsRead(table[source]);
    if !table[source].Shows().Fresh? {
      var h := new Handle<T>.Copy(memory, table[source]);
      table' := table[n := h];
      AddName(table, old(memory.shown), a, n, h, a[source]);
    }
  }

  method ApplySet<T>(table: map<nat, Handle<T>>, memory: Memory<T>, ghost a: map<nat, Reading<T>>, n: nat, content: T)
    requires Tracks(table, memory, a) && n in table
    modifies memory, memory.handles, memory.cells
    ensures Tracks(table, memory, a[n := Holds(content)])
    ensures memory.handles == old(memory.handles) && fresh(memory.cells - old(memory.cells))
    ensures |memory.Ever()| == old(|memory.Ever()|) + 1
  {
    hide Names, Memory.Valid, Handle.Last, Handle.Held;
    NameIsShown(table, memory.shown, a, n);
    memory.ShownIsRead(table[n]);
    ghost var boxes, freed, gone := memory.boxes, memory.freed, table[n].Going(memory);
    table[n].Set(memory, content);
    EverGrows(boxes, freed, gone, table[n].cell.value);
    ChangeName(table, old(memory.shown), a, n, Holds(content));
  }

  method ApplyRelease<T>(table: map<nat, Handle<T>>, memory: Memory<T>, ghost a: map<nat, Reading<T>>, n: nat)
    requires Tracks(table, memory, a) && n in table
    modifies memory, memory.handles, memory.cells
    ensures Tracks(table, memory, a[n := Released])
    ensures memory.handles == old(memory.handles) && memory.cells <= old(memory.cells)
    ensures memory.Ever() == old(memory.Ever())
  {
    hide Names, Memory.Valid, Handle.Last, Handle.Held;
    NameIsShown(table, memory.shown, a, n);
    memory.ShownIsRead(table[n]);
    ghost var boxes, freed, gone := memory.boxes, memory.freed, table[n].Going(memory);
    table[n].Release(memory);
    EverStays(boxes, freed, gone);
    ChangeName(table, old(memory.shown), a, n, Released);
  }

  method ApplyDestroy<T>(table: map<nat, Handle<T>>, memory: Memory<T>, ghost a: map<nat, Reading<T>>, n: nat)
    returns (table': map<nat, Handle<T>>)
    requires Tracks(table, memory, a) && n in table
    modifies memory, memory.handles, memory.cells
    ensures Tracks(table', memory, a - {n})
    ensures memory.handles <= old(memory.handles) && memory.cells <= old(memory.cells)
    ensures memory.Ever() == old(memory.Ever())
  {
    hide Names, Memory.Valid, Handle.Last, Handle.Held;
    NameIsShown(table, memory.shown, a, n);
    memory.ShownIsRead(table[n]);
    ghost var boxes, freed, gone := memory.boxes, memory.freed, table[n].Going(memory);
    table' := table - {n};
    table[n].Destroy(memory);
    EverStays(boxes, freed, gone);
    RemoveName(table, old(memory.shown), a, n);
  }

  /** The main result: after any history each name reads what the sharing-free meaning says, every value created is
      either still allocated or has been deleted once, and once every handle has been destroyed no cell and no value
      is left allocated. */
  method Replay<T>(ops: seq<Op<T>>)
    returns (readings: map<nat, Reading<T>>, cells: nat, values: nat, deletions: nat)
    ensures readings == Run(ops)
    ensures values + deletions == Sets(ops)
    ensures readings == map[] ==> cells == 0 && values == 0
  {
    hide Memory.Valid, Tracks, Memory.Ever;
    var memory := new Memory<T>();
    var table: map<nat, Handle<T>> := map[];
    NothingTracked(memory);
    var i := 0;
    while i < |ops|
      invariant 0 <= i <= |ops|
      invariant fresh(memory) && fresh(memory.handles) && fresh(memory.cells)
      invariant Tracks(table, memory, Run(ops[..i])) && |memory.Ever()| == Sets(ops[..i])
    {
      assert ops[..i + 1][..i] == ops[..i];
      table := Apply(table, memory, Run(ops[..i]), ops[i]);
      i := i + 1;
    }
    assert ops[..i] == ops;
    TrackedReads(table, memory, Run(ops));
    readings := map n | n in table :: table[n].Shows();
    cells, values, deletions := |memory.cells|, |memory.boxes|, |memory.freed|;
    memory.NeverBoth();
    if readings == map[] {
      assert table.Keys == {};
      memory.NothingLeft();
    }
  }

  lemma NothingTracked<T>(memory: Memory<T>)
    requires memory.Valid() && memory.handles == {} && memory.boxes == memory.freed == {}
    ensures Tracks(map[], memory, map[]) && |memory.Ever()| == 0
  {
    assert memory.Ever() == {};
  }

  lemma TrackedReads<T>(table: map<nat, Handle<T>>, memory: Memory<T>, a: map<nat, Reading<T>>)
    requires Tracks(table, memory, a)
    ensures memory.Valid() && table.Keys == a.Keys && forall n :: n in table ==> table[n].Shows() == a[n]
    ensures table.Keys == {} ==> memory.handles == {}
  {
    hide Memory.Valid;
    forall n | n in table ensures table[n].Shows() == a[n] {
      memory.ShownIsRead(table[n]);
    }
    if table.Keys == {} {
      assert table.Values == {};
    }
  }
}
