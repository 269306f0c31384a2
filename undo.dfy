/**
  * The undo stack of src/undo.rs: a history of committed states, the index
  * of the current one, and an optional uncommitted edit (`active`) that
  * shadows it. Editing copies the current state into `active`; `commit`
  * turns the edit into a new history entry, discarding any redo branch.
  */
module Undo {
  import opened Wrappers

  class UndoStack<T> {
    var history: seq<T>
    var active: Option<T>
    var idx: nat

    /** `idx` always names a state of the history. */
    predicate Valid()
      reads this
    {
      idx < |history|
    }

    /** `new`: one committed state and no edit. */
    constructor (initialState: T)
      ensures history == [initialState] && active == None && idx == 0
      ensures Valid() && !CanUndo() && !CanRedo()
      ensures Current() == initialState
    {
      history := [initialState];
      active := None;
      idx := 0;
    }

    /** `can_undo`: there is an earlier state. */
    predicate CanUndo()
      reads this
    {
      idx > 0
    }

    /** `can_redo`: there is a later state. */
    predicate CanRedo()
      reads this
      requires Valid()
    {
      idx < |history| - 1
    }

    /** `deref`: the edit in progress if there is one, else the current state. */
    function Current(): (t: T)
      reads this
      requires Valid()
      ensures active.Some? ==> t == active.value
      ensures active.None? ==> t == history[idx]
    {
      active.GetOr(history[idx])
    }

    /** `undo`: step back one state, dropping any uncommitted edit; at the first state, do nothing. */
    method Undo()
      requires Valid()
      modifies this
      ensures Valid() && history == old(history)
      ensures old(CanUndo()) ==> idx == old(idx) - 1 && active == None
      ensures !old(CanUndo()) ==> idx == old(idx) && active == old(active)
    {
      if CanUndo() {
        idx := idx - 1;
        active := None;
      }
    }

    /** `redo`: step forward one state, dropping any uncommitted edit; at the last state, do nothing. */
    method Redo()
      requires Valid()
      modifies this
      ensures Valid() && history == old(history)
      ensures old(CanRedo()) ==> idx == old(idx) + 1 && active == None
      ensures !old(CanRedo()) ==> idx == old(idx) && active == old(active)
    {
      if CanRedo() {
        idx := idx + 1;
        active := None;
      }
    }

    /**
      * `push_state`: drop the states after the current one, append
      * `newState` and make it current; no edit remains.
      */
    method PushState(newState: T)
      requires Valid()
      modifies this
      ensures Valid()
      ensures history == old(history)[..old(idx) + 1] + [newState]
      ensures idx == old(idx) + 1 && idx == |history| - 1
      ensures active == None
      ensures !CanRedo() && Current() == newState
    {
      active := None;
      history := history[..idx + 1];
      history := history + [newState];
      idx := idx + 1;
    }

    /** `commit`: make the uncommitted edit, if any, a new history entry. */
    method Commit()
      requires Valid()
      modifies this
      ensures Valid() && Current() == old(Current())
      ensures old(active) == None ==>
        history == old(history) && idx == old(idx) && active == None
      ensures old(active).Some? ==>
        history == old(history)[..old(idx) + 1] + [old(active).value]
        && idx == old(idx) + 1 && active == None && !CanRedo()
    {
      var taken := active;
      active := None;
      if taken.Some? {
        PushState(taken.value);
      }
    }

    /**
      * `deref_mut`: make sure there is an edit to write to, starting it as
      * a copy of the current state. The history is not touched.
      */
    method DerefMut()
      requires Valid()
      modifies this
      ensures Valid() && history == old(history) && idx == old(idx)
      ensures active == Some(old(Current()))
    {
      if active.None? {
        active := Some(history[idx]);
      }
    }

    /** A write through the reference `deref_mut` returned. */
    method WriteActive(t: T)
      requires Valid() && active.Some?
      modifies this
      ensures Valid() && history == old(history) && idx == old(idx)
      ensures active == Some(t) && Current() == t
    {
      active := Some(t);
    }

    /** `*s = f(*s)` through `deref_mut`: an edit applied to the current view. */
    method Edit(f: T -> T)
      requires Valid()
      modifies this
      ensures Valid() && history == old(history) && idx == old(idx)
      ensures active == Some(f(old(Current())))
    {
      DerefMut();
      WriteActive(f(active.value));
    }
  }

  /** The edit `s.a += k` of the unit test. */
  function AddK(k: int): int -> int
  {
    a => a + k
  }

  /** The first part of the unit test: two edits committed on top of 3. */
  method ScenarioSetup() returns (s: UndoStack<int>)
    ensures fresh(s) && s.Valid()
    ensures s.history == [3, 8, 11] && s.idx == 2 && s.active == None
  {
    s := new UndoStack(3);
    s.Edit(AddK(5));
    s.Commit();
    assert s.history == [3, 8] && s.idx == 1;
    s.Edit(AddK(1));
    s.Edit(AddK(2));
    assert s.active == Some(11);
    s.Commit();
  }

  /** Undo and redo walk the three committed states, stopping at either end. */
  method ScenarioWalk(s: UndoStack<int>) returns (observed: seq<int>)
    requires s.Valid() && s.history == [3, 8, 11] && s.idx == 2 && s.active == None
    modifies s
    ensures observed == [11, 8, 11, 11, 3, 3, 8]
    ensures s.Valid() && s.history == [3, 8, 11] && s.idx == 1 && s.active == None
  {
    var o1 := s.Current();
    s.Undo();
    var o2 := s.Current();
    s.Redo();
    var o3 := s.Current();
    s.Redo();
    var o4 := s.Current();
    s.Undo();
    s.Undo();
    var o5 := s.Current();
    s.Undo();
    var o6 := s.Current();
    s.Redo();
    var o7 := s.Current();
    observed := [o1, o2, o3, o4, o5, o6, o7];
  }

  /**
    * An undo over an uncommitted edit discards it; a committed edit drops
    * the redo branch.
    */
  method ScenarioEdits(s: UndoStack<int>) returns (observed: seq<int>)
    requires s.Valid() && s.history == [3, 8, 11] && s.idx == 1 && s.active == None
    modifies s
    ensures observed == [-2, 3, 8, -2, -2]
  {
    s.Edit(AddK(-10));
    var o1 := s.Current();
    s.Undo();
    var o2 := s.Current();
    s.Redo();
    var o3 := s.Current();
    s.Edit(AddK(-10));
    s.Commit();
    assert s.history == [3, 8, -2] && s.idx == 2;
    var o4 := s.Current();
    s.Redo();
    var o5 := s.Current();
    observed := [o1, o2, o3, o4, o5];
  }

  /**
    * The unit test of src/undo.rs, with the state reduced to its one
    * integer field: the values it asserts, in order.
    */
  method UndoScenario() returns (observed: seq<int>)
    ensures observed == [11, 8, 11, 11, 3, 3, 8, -2, 3, 8, -2, -2]
  {
    var s := ScenarioSetup();
    var walk := ScenarioWalk(s);
    var edits := ScenarioEdits(s);
    observed := walk + edits;
  }
}
