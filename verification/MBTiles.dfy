/** The MBTiles writer: whoever gets the database's lock writes its tile and what others
    had to leave in a buffer meanwhile. */
module MBTiles {
  import opened Arithmetic

  datatype Statement = Statement(zoom: nat, x: nat, y: nat, data: seq<int>, isMerge: bool)

  // ----- The table of tiles -----

  /** A tile's row in the table: MBTiles counts rows from the south. */
  datatype Key = Key(zoom: nat, column: nat, row: int)

  function KeyOf(t: Statement): Key {
    Key(t.zoom, t.x, Pow2(t.zoom) - 1 - t.y)
  }

  /** Rows grow to the north, from 0 in the south; y grows to the south. */
  predicate StandsFor(k: Key, t: Statement) {
    k.zoom == t.zoom && k.column == t.x && k.row + t.y + 1 == Pow2(t.zoom)
  }

  lemma KeyStandsFor(t: Statement, k: Key)
    ensures StandsFor(k, t) <==> k == KeyOf(t)
  {
  }

  lemma SouthernmostRow(t: Statement)
    ensures KeyOf(t).row == 0 <==> t.y == Pow2(t.zoom) - 1
  {
  }

  lemma OneStepNorth(t: Statement)
    requires t.y > 0
    ensures KeyOf(t.(y := t.y - 1)) == KeyOf(t).(row := KeyOf(t).row + 1)
  {
  }

  lemma RowsOnLevel(t: Statement)
    ensures 0 <= KeyOf(t).row < Pow2(t.zoom) <==> t.y < Pow2(t.zoom)
  {
  }

  /** The tile that a tile is a quarter of. */
  lemma ParentsRow(t: Statement)
    requires t.zoom > 0
    ensures KeyOf(t.(zoom := t.zoom - 1, x := t.x / 2, y := t.y / 2)) ==
      Key(t.zoom - 1, KeyOf(t).column / 2, KeyOf(t).row / 2)
  {
    assert Pow2(t.zoom) == 2 * Pow2(t.zoom - 1);
  }

  predicate SameTile(t: Statement, u: Statement) {
    t.zoom == u.zoom && t.x == u.x && t.y == u.y
  }

  type Table = map<Key, seq<int>>

  datatype Outcome = Rows(table: Table) | ConstraintFails

  /** REPLACE overwrites a tile; INSERT fails on one that is there. */
  function Executed(o: Outcome, t: Statement): Outcome {
    if o.ConstraintFails? || (!t.isMerge && KeyOf(t) in o.table) then ConstraintFails
    else Rows(o.table[KeyOf(t) := t.data])
  }

  function TableOf(log: seq<Statement>): Outcome {
    if log == [] then Rows(map[]) else Executed(TableOf(log[..|log| - 1]), log[|log| - 1])
  }

  lemma KeyIsTile(t: Statement, u: Statement)
    ensures KeyOf(t) == KeyOf(u) <==> SameTile(t, u)
  {
  }

  /** The statement of the log executed last for the tile of t. */
  ghost predicate LastFor(log: seq<Statement>, t: Statement, p: int) {
    0 <= p < |log| && SameTile(log[p], t) && forall q :: p < q < |log| ==> !SameTile(log[q], t)
  }

  /** Unless a constraint fails, a tile's row holds what was executed last for it, and
      there is no row without a statement. */
  lemma {:induction false} TableHoldsLast(log: seq<Statement>, t: Statement)
    requires TableOf(log).Rows?
    ensures forall k :: StandsFor(k, t) ==> (k in TableOf(log).table <==> exists p :: LastFor(log, t, p))
    ensures forall k, p :: StandsFor(k, t) && LastFor(log, t, p) ==> k in TableOf(log).table && TableOf(log).table[k] == log[p].data
  {
    forall k | StandsFor(k, t) ensures k == KeyOf(t) {
      KeyStandsFor(t, k);
    }
    KeyStandsFor(t, KeyOf(t));
    if log != [] {
      var n := |log| - 1;
      var front := log[..n];
      TableHoldsLast(front, t);
      KeyIsTile(log[n], t);
      hide KeyOf, StandsFor;
      if SameTile(log[n], t) {
        assert LastFor(log, t, n);
      } else {
        forall p | LastFor(front, t, p) ensures LastFor(log, t, p) {
        }
        forall p | LastFor(log, t, p) ensures LastFor(front, t, p) {
        }
      }
    }
  }

  // ----- One thread -----

  class MBTiles {
    var pendingStatements1: seq<Statement>
    var pendingStatements2: seq<Statement>
    // The statements executed, in order.
    var database: seq<Statement>

    constructor ()
      ensures pendingStatements1 == pendingStatements2 == database == []
    {
      pendingStatements1, pendingStatements2, database := [], [], [];
    }

    method InsertOrReplace(t: Statement)
      modifies this`database
      ensures database == old(database) + [t]
      ensures forall k :: StandsFor(k, t) ==>
        var before := TableOf(old(database));
        TableOf(database) ==
          if before.ConstraintFails? || (k in before.table && !t.isMerge) then ConstraintFails else Rows(before.table[k := t.data])
    {
      forall k | StandsFor(k, t) ensures k == KeyOf(t) {
        KeyStandsFor(t, k);
      }
      hide StandsFor, KeyOf;
      database := database + [t];
      assert database[..|database| - 1] == old(database);
    }

    /** The second buffer is emptied from its end. */
    method DrainPending()
      modifies this`database, this`pendingStatements2
      ensures database == old(database) + Reversed(old(pendingStatements2)) && pendingStatements2 == []
    {
      ghost var before, pending := database, pendingStatements2;
      while pendingStatements2 != []
        invariant |pendingStatements2| <= |pending| && pendingStatements2 == pending[..|pendingStatements2|]
        invariant database == before + Reversed(pending[|pendingStatements2|..])
        decreases |pendingStatements2|
      {
        var n := |pendingStatements2| - 1;
        assert pending[n..] == [pending[n]] + pending[n + 1..];
        ReversedMore(pending[n], pending[n + 1..]);
        InsertOrReplace(pendingStatements2[n]);
        pendingStatements2 := pendingStatements2[..n];
      }
      assert pending[0..] == pending;
    }

    /** The second buffer is emptied and takes the place of the first; twice. */
    method FlushPendingStatements()
      modifies this
      ensures database == old(database) + Reversed(old(pendingStatements2)) + Reversed(old(pendingStatements1))
      ensures pendingStatements1 == pendingStatements2 == []
    {
      for i := 0 to 2
        invariant i == 0 ==>
          database == old(database) && pendingStatements1 == old(pendingStatements1) && pendingStatements2 == old(pendingStatements2)
        invariant i == 1 ==>
          database == old(database) + Reversed(old(pendingStatements2)) &&
          pendingStatements1 == [] && pendingStatements2 == old(pendingStatements1)
        invariant i == 2 ==>
          database == old(database) + Reversed(old(pendingStatements2)) + Reversed(old(pendingStatements1)) &&
          pendingStatements1 == pendingStatements2 == []
      {
        DrainPending();
        pendingStatements1, pendingStatements2 := pendingStatements2, pendingStatements1;
      }
    }

    method SaveTile(t: Statement, lockWon: bool)
      modifies this
      ensures lockWon ==>
        pendingStatements1 == pendingStatements2 == [] &&
        database == old(database) + [t] + Reversed(old(pendingStatements2)) + Reversed(old(pendingStatements1))
      ensures !lockWon ==>
        database == old(database) && pendingStatements2 == old(pendingStatements2) && pendingStatements1 == old(pendingStatements1) + [t]
    {
      if lockWon {
        InsertOrReplace(t);
        FlushPendingStatements();
      } else {
        pendingStatements1 := pendingStatements1 + [t];
      }
    }

    /** What was still pending is in the database afterwards. */
    method CloseForWriting()
      modifies this
      ensures pendingStatements1 == pendingStatements2 == []
      ensures multiset(database) == old(multiset(database) + multiset(pendingStatements1) + multiset(pendingStatements2))
    {
      ReversedSame(pendingStatements1);
      ReversedSame(pendingStatements2);
      FlushPendingStatements();
    }
  }

  function Reversed<T>(s: seq<T>): (r: seq<T>) {
    if s == [] then [] else [s[|s| - 1]] + Reversed(s[..|s| - 1])
  }

  lemma {:induction false} ReversedMore<T>(t: T, s: seq<T>)
    ensures Reversed([t] + s) == Reversed(s) + [t]
  {
    hide *;
    ReversedOne(t);
    ReversedNone<T>();
    if s == [] {
      assert [t] + s == [t];
      assert Reversed(s) + [t] == [t];
    } else {
      var front, last := s[..|s| - 1], s[|s| - 1];
      assert front + [last] == s;
      ReversedMore(t, front);
      ReversedLast(front, last);
      ReversedLast([t] + front, last);
      assert [t] + front + [last] == [t] + s;
      assert [last] + (Reversed(front) + [t]) == [last] + Reversed(front) + [t];
    }
  }

  lemma ReversedOne<T>(t: T)
    ensures Reversed([t]) == [t]
  {
    assert [t][..0] == [];
  }

  lemma ReversedNone<T>()
    ensures Reversed<T>([]) == []
  {
  }

  lemma {:induction false} ReversedSame<T>(s: seq<T>)
    ensures multiset(Reversed(s)) == multiset(s)
  {
    hide *;
    if s == [] {
      ReversedNone<T>();
    } else {
      var front, last := s[..|s| - 1], s[|s| - 1];
      assert s == front + [last];
      ReversedSame(front);
      ReversedLast(front, last);
    }
  }

  // ----- Many threads -----

  /** A save, with its number among all saves. */
  datatype Save = Save(number: nat, t: Statement)

  /** Who holds the database's lock: nobody, somebody about to write a tile, or somebody
      in the given round of a flush. */
  datatype Holder = Nobody | Writing(save: Save) | Flushing(round: nat)

  datatype State = State(pending1: seq<Save>, pending2: seq<Save>, database: seq<Save>, holder: Holder, saved: seq<Statement>)

  datatype Step =
    | Win(t: Statement)    // a save gets the lock
    | Buffer(t: Statement) // a save does not get the lock
    | Write                // the winner writes its tile
    | Drain                // a flush writes the last tile of the second buffer
    | Swap                 // a flush exchanges the buffers
    | Close                // the writer is closed

  predicate Enabled(s: State, step: Step) {
    match step
    case Win(_) => s.holder.Nobody?
    case Buffer(_) => true
    case Write => s.holder.Writing?
    case Drain => s.holder.Flushing? && s.pending2 != []
    case Swap => s.holder.Flushing? && s.pending2 == []
    case Close => s.holder.Nobody?
  }

  function After(s: State, step: Step): State
    requires Enabled(s, step)
  {
    match step
    case Win(t) => s.(holder := Writing(Save(|s.saved|, t)), saved := s.saved + [t])
    case Buffer(t) => s.(pending1 := s.pending1 + [Save(|s.saved|, t)], saved := s.saved + [t])
    case Write => s.(database := s.database + [s.holder.save], holder := Flushing(0))
    case Drain =>
      var n := |s.pending2| - 1;
      s.(database := s.database + [s.pending2[n]], pending2 := s.pending2[..n])
    case Swap =>
      s.(pending1 := s.pending2, pending2 := s.pending1, holder := if s.holder.round == 0 then Flushing(1) else Nobody)
    case Close => s.(holder := Flushing(0))
  }

  const START: State := State([], [], [], Nobody, [])

  ghost predicate IsRun(states: seq<State>, steps: seq<Step>) {
    && |states| == |steps| + 1
    && states[0] == START
    && forall j :: 0 <= j < |steps| ==> Enabled(states[j], steps[j]) && states[j + 1] == After(states[j], steps[j])
  }

  ghost function InHand(s: State): seq<Save> {
    if s.holder.Writing? then [s.holder.save] else []
  }

  // ----- In what order saves are written -----

  /** What is written and what is waiting, in the order in which it is written if nothing
      more is saved. */
  ghost function Order(s: State): seq<Save> {
    s.database + InHand(s) + Reversed(s.pending2) + Reversed(s.pending1)
  }

  /** The saves that one made now gets in front of: if it wins the lock, all that are
      waiting; if it is buffered, those in the first buffer. */
  ghost function Behind(s: State, step: Step): seq<Save> {
    if step.Win? then Reversed(s.pending2) + Reversed(s.pending1) else Reversed(s.pending1)
  }

  ghost function InFront(s: State, step: Step): seq<Save> {
    if step.Win? then s.database else s.database + InHand(s) + Reversed(s.pending2)
  }

  predicate Saves(step: Step) {
    step.Win? || step.Buffer?
  }

  /** A save takes its place in the order; no other step changes the order. */
  lemma OrderStep(s: State, step: Step)
    requires Enabled(s, step)
    ensures !Saves(step) ==> Order(After(s, step)) == Order(s) && After(s, step).saved == s.saved
    ensures Saves(step) ==>
      After(s, step).saved == s.saved + [step.t] && Order(s) == InFront(s, step) + Behind(s, step) &&
      Order(After(s, step)) == InFront(s, step) + [Save(|s.saved|, step.t)] + Behind(s, step)
  {
    hide Reversed;
    var front, back := Reversed(s.pending2), Reversed(s.pending1);
    ReversedNone<Save>();
    match step
    case Win(t) =>
      TakesPlace(s.database, Save(|s.saved|, t), front, back);
    case Buffer(t) =>
      ReversedLast(s.pending1, Save(|s.saved|, t));
      TakesPlace(s.database + InHand(s) + front, Save(|s.saved|, t), back, []);
    case Write =>
      MovesOver(s.database, s.holder.save, front, back);
    case Drain =>
      var n := |s.pending2| - 1;
      assert s.pending2 == s.pending2[..n] + [s.pending2[n]];
      ReversedLast(s.pending2[..n], s.pending2[n]);
      MovesOver(s.database, s.pending2[n], Reversed(s.pending2[..n]), back);
    case Swap =>
      assert s.database + [] + [] + back == s.database + [] + back + [];
    case Close =>
  }

  lemma TakesPlace(a: seq<Save>, e: Save, b: seq<Save>, c: seq<Save>)
    ensures a + [] + b + c == a + (b + c) && a + [e] + b + c == a + [e] + (b + c)
    ensures c == [] ==> b + c == b && a + [] + b + c == a + b && a + ([e] + b) == a + [e] + b
  {
  }

  lemma MovesOver(a: seq<Save>, e: Save, b: seq<Save>, c: seq<Save>)
    ensures a + [e] + b + c == (a + [e]) + [] + b + c
    ensures a + [] + ([e] + b) + c == (a + [e]) + [] + b + c
  {
  }

  lemma ReversedLast<T>(s: seq<T>, e: T)
    ensures Reversed(s + [e]) == [e] + Reversed(s)
  {
    assert (s + [e])[..|s|] == s;
  }

  ghost predicate At(o: seq<Save>, n: nat, p: int) {
    0 <= p < |o| && o[p].number == n
  }

  ghost predicate Holds(o: seq<Save>, n: nat) {
    exists p :: At(o, n, p)
  }

  /** The order holds each save once. */
  ghost predicate EachOnce(o: seq<Save>, saved: seq<Statement>) {
    && (forall p :: 0 <= p < |o| ==> o[p].number < |saved| && o[p].t == saved[o[p].number])
    && (forall p, q :: 0 <= p < q < |o| ==> o[p].number != o[q].number)
    && (forall n: nat :: n < |saved| ==> Holds(o, n))
  }

  lemma OneMore(front: seq<Save>, back: seq<Save>, saved: seq<Statement>, t: Statement)
    requires EachOnce(front + back, saved)
    ensures EachOnce(front + [Save(|saved|, t)] + back, saved + [t])
  {
    var before, after := front + back, front + [Save(|saved|, t)] + back;
    forall p | 0 <= p < |after| && p != |front|
      ensures after[p] == before[if p < |front| then p else p - 1]
    {
    }
    forall n: nat | n < |saved| + 1 ensures Holds(after, n) {
      if n == |saved| {
        assert At(after, n, |front|);
      } else {
        assert Holds(before, n);
        var p :| At(before, n, p);
        assert At(after, n, if p < |front| then p else p + 1);
      }
    }
  }

  lemma {:induction false} EverySaveOnce(states: seq<State>, steps: seq<Step>, m: nat)
    requires IsRun(states, steps) && m < |states|
    ensures EachOnce(Order(states[m]), states[m].saved)
  {
    hide Order, EachOnce, InFront, Behind;
    if m == 0 {
      NothingSaved();
    } else {
      EverySaveOnce(states, steps, m - 1);
      OrderStep(states[m - 1], steps[m - 1]);
      if Saves(steps[m - 1]) {
        OneMore(InFront(states[m - 1], steps[m - 1]), Behind(states[m - 1], steps[m - 1]), states[m - 1].saved, steps[m - 1].t);
      }
    }
  }

  lemma NothingSaved()
    ensures EachOnce(Order(START), START.saved)
  {
    assert Order(START) == [];
  }

  /** Save i comes before save j. */
  ghost predicate Ahead(o: seq<Save>, i: nat, j: nat) {
    exists p, q :: p < q && At(o, i, p) && At(o, j, q)
  }

  lemma AheadInserted(front: seq<Save>, e: Save, back: seq<Save>, i: nat, j: nat)
    requires e.number != i && e.number != j
    ensures Ahead(front + [e] + back, i, j) <==> Ahead(front + back, i, j)
  {
    var before, after := front + back, front + [e] + back;
    var f := |front|;
    if p, q :| p < q && At(before, i, p) && At(before, j, q) {
      assert At(after, i, if p < f then p else p + 1) && At(after, j, if q < f then q else q + 1);
    }
    if p, q :| p < q && At(after, i, p) && At(after, j, q) {
      assert At(before, i, if p < f then p else p - 1) && At(before, j, if q < f then q else q - 1);
    }
  }

  /** The save of this step gets in front of save i. */
  ghost predicate Overtakes(s: State, step: Step, i: nat) {
    Holds(Behind(s, step), i)
  }

  lemma PlaceTaken(front: seq<Save>, back: seq<Save>, saved: seq<Statement>, t: Statement, i: nat)
    requires EachOnce(front + back, saved) && i < |saved|
    ensures Ahead(front + [Save(|saved|, t)] + back, i, |saved|) <==> !Holds(back, i)
  {
    var before, after := front + back, front + [Save(|saved|, t)] + back;
    assert Holds(before, i);
    var p :| At(before, i, p);
    assert At(after, |saved|, |front|);
    if p < |front| {
      assert At(after, i, p);
      assert forall r :: At(back, i, r) ==> before[|front| + r].number == i;
    } else {
      assert At(back, i, p - |front|);
      OneMore(front, back, saved, t);
      NotAhead(after, saved + [t], |front|, p + 1);
    }
  }

  /** The order of two saves is settled when the later one is made, once for all. */
  lemma {:induction false} OrderIsSettled(states: seq<State>, steps: seq<Step>, k: nat, m: nat, i: nat)
    requires IsRun(states, steps) && k < m < |states| && Saves(steps[k]) && i < |states[k].saved|
    ensures |states[k].saved| < |states[m].saved|
    ensures Ahead(Order(states[m]), i, |states[k].saved|) <==> !Overtakes(states[k], steps[k], i)
  {
    hide Order, EachOnce, InFront, Behind, Ahead;
    var s, step := states[m - 1], steps[m - 1];
    OrderStep(s, step);
    if m == k + 1 {
      EverySaveOnce(states, steps, k);
      PlaceTaken(InFront(s, step), Behind(s, step), s.saved, step.t, i);
    } else {
      OrderIsSettled(states, steps, k, m - 1, i);
      if Saves(step) {
        AheadInserted(InFront(s, step), Save(|s.saved|, step.t), Behind(s, step), i, |states[k].saved|);
      }
    }
  }

  /** Of two saves that have been written, the earlier was written first if and only if the
      later one did not get in front of it. */
  lemma WrittenInOrder(states: seq<State>, steps: seq<Step>, k: nat, m: nat, i: nat)
    requires IsRun(states, steps) && k < m < |states| && Saves(steps[k]) && i < |states[k].saved|
    requires Holds(states[m].database, i) && Holds(states[m].database, |states[k].saved|)
    ensures Ahead(states[m].database, i, |states[k].saved|) <==> !Overtakes(states[k], steps[k], i)
  {
    hide Behind;
    OrderIsSettled(states, steps, k, m, i);
    EverySaveOnce(states, steps, m);
    AheadInFront(states[m].database, Order(states[m]), states[m].saved, i, |states[k].saved|);
  }

  lemma AheadInFront(front: seq<Save>, o: seq<Save>, saved: seq<Statement>, i: nat, j: nat)
    requires front <= o && EachOnce(o, saved)
    requires Holds(front, i) && Holds(front, j)
    ensures Ahead(front, i, j) <==> Ahead(o, i, j)
  {
    var p, q :| At(front, i, p) && At(front, j, q);
    forall a, b | a < b && At(o, i, a) && At(o, j, b) ensures a == p && b == q {
      assert o[p].number == i && o[q].number == j;
    }
    if Ahead(front, i, j) {
      var a, b :| a < b && At(front, i, a) && At(front, j, b);
      assert At(o, i, a) && At(o, j, b);
    }
  }

  // ----- What is saved is written once -----

  ghost function Numbered(saved: seq<Statement>): (r: seq<Save>)
    ensures |r| == |saved|
  {
    seq(|saved|, n requires 0 <= n < |saved| => Save(n, saved[n]))
  }

  /** Nothing is lost and nothing doubled: what was saved is in the database, in one of
      the buffers, or in the hand of the thread that is about to write it. */
  ghost predicate Conserved(s: State) {
    multiset(Numbered(s.saved)) == multiset(s.database) + multiset(s.pending1) + multiset(s.pending2) + multiset(InHand(s))
  }

  lemma StepConserves(s: State, step: Step)
    requires Conserved(s) && Enabled(s, step)
    ensures Conserved(After(s, step))
  {
    hide Order, InFront, Behind, Numbered, Conserved, After, Enabled;
    OrderStep(s, step);
    ConservedIs(s);
    ConservedIs(After(s, step));
    if Saves(step) {
      NumberedMore(s.saved, step.t);
      MultisetInserted(InFront(s, step), Save(|s.saved|, step.t), Behind(s, step));
    }
  }

  lemma ConservedIs(s: State)
    ensures Conserved(s) <==> multiset(Numbered(s.saved)) == multiset(Order(s))
  {
    OrderIsMultiset(s);
  }

  lemma MultisetInserted<T>(front: seq<T>, e: T, back: seq<T>)
    ensures multiset(front + [e] + back) == multiset(front + back) + multiset{e}
  {
  }

  lemma OrderIsMultiset(s: State)
    ensures multiset(Order(s)) == multiset(s.database) + multiset(s.pending1) + multiset(s.pending2) + multiset(InHand(s))
  {
    ReversedSame(s.pending1);
    ReversedSame(s.pending2);
  }

  lemma NumberedMore(saved: seq<Statement>, t: Statement)
    ensures multiset(Numbered(saved + [t])) == multiset(Numbered(saved)) + multiset{Save(|saved|, t)}
  {
    assert Numbered(saved + [t]) == Numbered(saved) + [Save(|saved|, t)];
  }

  lemma {:induction false} EveryRunConserves(states: seq<State>, steps: seq<Step>, m: nat)
    requires IsRun(states, steps) && m < |states|
    ensures Conserved(states[m])
  {
    if m > 0 {
      EveryRunConserves(states, steps, m - 1);
      StepConserves(states[m - 1], steps[m - 1]);
    }
  }

  /** From c on the writer is being closed, and no save is active any more. */
  ghost predicate Closing(states: seq<State>, steps: seq<Step>, c: nat) {
    && IsRun(states, steps) && c < |steps| && steps[c].Close?
    && forall j :: c < j < |steps| ==> steps[j].Drain? || steps[j].Swap?
  }

  lemma {:induction false} ClosingEmpties(states: seq<State>, steps: seq<Step>, c: nat, j: nat)
    requires Closing(states, steps, c) && c < j < |states|
    ensures match states[j].holder
            case Nobody => states[j].pending1 == [] && states[j].pending2 == []
            case Writing(_) => false
            case Flushing(round) => round <= 1 && (round == 1 ==> states[j].pending1 == [])
    ensures states[j].saved == states[c].saved
  {
    if j > c + 1 {
      ClosingEmpties(states, steps, c, j - 1);
    }
  }

  /** Once the writer has been closed, each tile that was saved has been inserted exactly
      once. */
  lemma ClosedIsComplete(states: seq<State>, steps: seq<Step>, c: nat)
    requires Closing(states, steps, c) && states[|steps|].holder.Nobody?
    ensures multiset(states[|steps|].database) == multiset(Numbered(states[c].saved))
    ensures Order(states[|steps|]) == states[|steps|].database
  {
    ClosingEmpties(states, steps, c, |steps|);
    EveryRunConserves(states, steps, |steps|);
    var s := states[|steps|];
    assert Order(s) == s.database + [] + [] + [];
  }

  // ----- Which version of a tile is kept -----

  function Log(saves: seq<Save>): (r: seq<Statement>)
    ensures |r| == |saves|
  {
    seq(|saves|, p requires 0 <= p < |saves| => saves[p].t)
  }

  /** Step k saves the last version of its tile. */
  ghost predicate SavesNewest(steps: seq<Step>, k: nat) {
    && k < |steps| && Saves(steps[k])
    && forall l :: k < l < |steps| && Saves(steps[l]) ==> !SameTile(steps[l].t, steps[k].t)
  }

  /** No version of its tile is waiting that this save gets in front of. */
  ghost predicate NoneWaiting(s: State, step: Step)
    requires Saves(step)
  {
    forall e :: e in Behind(s, step) ==> !SameTile(e.t, step.t)
  }

  /** The database, once closed, keeps the newest version of a tile if and only if, when it
      was saved, no earlier version of the tile was waiting behind it: in either buffer if it
      won the lock, in the first buffer if it did not. */
  lemma NewestIsKept(states: seq<State>, steps: seq<Step>, c: nat, k: nat)
    requires Closing(states, steps, c) && states[|steps|].holder.Nobody? && SavesNewest(steps, k)
    ensures var db := states[|steps|].database;
            NoneWaiting(states[k], steps[k]) <==>
              exists p :: At(db, |states[k].saved|, p) && LastFor(Log(db), steps[k].t, p)
  {
    hide Behind, Order, Ahead;
    var db, saved := states[|steps|].database, states[|steps|].saved;
    var j := |states[k].saved|;
    ClosedIsComplete(states, steps, c);
    EverySaveOnce(states, steps, |steps|);
    SavedStays(states, steps, k, |steps|);
    assert Holds(db, j);
    var q :| At(db, j, q);
    EarlierVersions(states, steps, k);
    if NoneWaiting(states[k], steps[k]) {
      forall r | q < r < |db| ensures !SameTile(db[r].t, steps[k].t) {
        var i := db[r].number;
        if SameTile(saved[i], steps[k].t) {
          LaterIsOther(states, steps, k, i);
          OrderIsSettled(states, steps, k, |steps|, i);
          NotAhead(db, saved, q, r);
          WaitingBehind(states[k], steps[k], i);
        }
      }
      assert LastFor(Log(db), steps[k].t, q);
    }
    if p :| At(db, j, p) && LastFor(Log(db), steps[k].t, p) {
      forall e | e in Behind(states[k], steps[k]) ensures !SameTile(e.t, steps[k].t) {
        var b :| 0 <= b < |Behind(states[k], steps[k])| && Behind(states[k], steps[k])[b] == e;
        assert At(Behind(states[k], steps[k]), e.number, b);
        OrderIsSettled(states, steps, k, |steps|, e.number);
        assert Holds(db, e.number);
        var r :| At(db, e.number, r);
        if r < p {
          Places(db, r, p);
        }
        assert Log(db)[r] == e.t;
      }
    }
  }

  lemma WaitingBehind(s: State, step: Step, i: nat)
    requires Saves(step) && Overtakes(s, step, i)
    requires forall e :: e in Behind(s, step) && e.number == i ==> SameTile(e.t, step.t)
    ensures !NoneWaiting(s, step)
  {
    hide Behind;
    var p :| At(Behind(s, step), i, p);
    assert Behind(s, step)[p] in Behind(s, step);
  }

  lemma Places(o: seq<Save>, p: nat, q: nat)
    requires p < q < |o|
    ensures Ahead(o, o[p].number, o[q].number)
  {
    assert At(o, o[p].number, p) && At(o, o[q].number, q);
  }

  /** What waits was saved before. */
  lemma EarlierVersions(states: seq<State>, steps: seq<Step>, k: nat)
    requires IsRun(states, steps) && k < |steps|
    ensures forall e :: e in Behind(states[k], steps[k]) ==>
      e.number < |states[k].saved| && e.t == states[k].saved[e.number]
  {
    EverySaveOnce(states, steps, k);
    var s := states[k];
    forall e | e in Behind(s, steps[k]) ensures e in Order(s) {
    }
  }

  lemma {:induction false} SavedStays(states: seq<State>, steps: seq<Step>, k: nat, m: nat)
    requires IsRun(states, steps) && k < m < |states|
    ensures states[k].saved <= states[m].saved
    ensures Saves(steps[k]) ==> states[k].saved + [steps[k].t] <= states[m].saved
  {
    if m > k + 1 {
      SavedStays(states, steps, k, m - 1);
    }
  }

  /** The step that made a save. */
  lemma {:induction false} SaveWasMade(states: seq<State>, steps: seq<Step>, m: nat, i: nat) returns (l: nat)
    requires IsRun(states, steps) && m < |states| && i < |states[m].saved|
    ensures l < m && Saves(steps[l]) && |states[l].saved| == i && steps[l].t == states[m].saved[i]
  {
    if i < |states[m - 1].saved| {
      l := SaveWasMade(states, steps, m - 1, i);
    } else {
      l := m - 1;
    }
  }

  lemma LaterIsOther(states: seq<State>, steps: seq<Step>, k: nat, i: nat)
    requires IsRun(states, steps) && SavesNewest(steps, k) && i < |states[|steps|].saved|
    requires i != |states[k].saved| && SameTile(states[|steps|].saved[i], steps[k].t)
    ensures i < |states[k].saved|
  {
    var l := SaveWasMade(states, steps, |steps|, i);
    if l < k {
      SavedStays(states, steps, l, k);
    }
  }

  lemma NotAhead(o: seq<Save>, saved: seq<Statement>, q: nat, r: nat)
    requires EachOnce(o, saved) && q < r < |o|
    ensures !Ahead(o, o[r].number, o[q].number)
  {
    forall a, b | At(o, o[r].number, a) && At(o, o[q].number, b) ensures a == r && b == q {
      assert o[a].number == o[r].number && o[b].number == o[q].number;
    }
  }

  /** The tile's row holds the data. */
  ghost predicate RowHolds(table: Table, t: Statement, data: seq<int>) {
    forall k :: StandsFor(k, t) ==> k in table && table[k] == data
  }

  /** In the table's terms: if no statement fails, the row of a tile holds its newest
      version in just that case, and an older one otherwise. */
  lemma TableKeepsNewest(states: seq<State>, steps: seq<Step>, c: nat, k: nat)
    requires Closing(states, steps, c) && states[|steps|].holder.Nobody? && SavesNewest(steps, k)
    requires TableOf(Log(states[|steps|].database)).Rows?
    ensures var db, t := states[|steps|].database, steps[k].t;
            var table := TableOf(Log(db)).table;
            exists p :: LastFor(Log(db), t, p) && RowHolds(table, t, db[p].t.data) &&
                   if NoneWaiting(states[k], steps[k]) then db[p].number == |states[k].saved| else db[p].number < |states[k].saved|
  {
    hide Behind, KeyOf, TableOf, StandsFor;
    var db, t, j := states[|steps|].database, steps[k].t, |states[k].saved|;
    ClosedIsComplete(states, steps, c);
    EverySaveOnce(states, steps, |steps|);
    SavedStays(states, steps, k, |steps|);
    TableHoldsLast(Log(db), t);
    NewestIsKept(states, steps, c, k);
    assert Holds(db, j);
    var q :| At(db, j, q);
    var p := LastExists(Log(db), t, q);
    assert db[p].number == j ==> At(db, j, p);
    if NoneWaiting(states[k], steps[k]) {
      var r :| At(db, j, r) && LastFor(Log(db), t, r);
      LastIsOne(Log(db), t, p, r);
    } else {
      LaterIsOther(states, steps, k, db[p].number);
    }
  }

  lemma LastIsOne(log: seq<Statement>, t: Statement, p: int, q: int)
    requires LastFor(log, t, p) && LastFor(log, t, q)
    ensures p == q
  {
  }

  lemma {:induction false} LastExists(log: seq<Statement>, t: Statement, q: nat) returns (p: nat)
    requires q < |log| && SameTile(log[q], t)
    ensures LastFor(log, t, p)
  {
    var n := |log| - 1;
    if SameTile(log[n], t) {
      p := n;
    } else {
      p := LastExists(log[..n], t, q);
    }
  }

  // ----- Where it does not -----

  /** Two versions wait in one buffer: the newer is written first. */
  lemma BufferedTwice(zoom: nat, x: nat, y: nat, older: seq<int>, newer: seq<int>, other: Statement)
    ensures var a, b := Statement(zoom, x, y, older, true), Statement(zoom, x, y, newer, true);
            var s0 := START;
            var s1 := After(s0, Buffer(a));
            var s2 := After(s1, Buffer(b));
            var s3 := After(s2, Win(other));
            var s4 := After(s3, Write);
            var s5 := After(s4, Swap);
            var s6 := After(s5, Drain);
            !NoneWaiting(s1, Buffer(b)) &&
            s6.pending2 == [Save(0, a)] && Log(After(s6, Drain).database) == [other, b, a]
  {
    var a, b := Statement(zoom, x, y, older, true), Statement(zoom, x, y, newer, true);
    assert Behind(After(START, Buffer(a)), Buffer(b))[0] == Save(0, a);
  }

  /** One version waits when a newer one wins the lock: it is written after it, without
      having shared a buffer with it. */
  lemma WonWhileWaiting(zoom: nat, x: nat, y: nat, older: seq<int>, newer: seq<int>, other: Statement)
    ensures var a, b := Statement(zoom, x, y, older, true), Statement(zoom, x, y, newer, true);
            var s0 := START;
            var s1 := After(s0, Win(other));
            var s2 := After(s1, Write);
            var s3 := After(s2, Swap);
            var s4 := After(s3, Buffer(a));
            var s5 := After(s4, Swap);
            var s6 := After(s5, Win(b));
            var s7 := After(s6, Write);
            !NoneWaiting(s5, Win(b)) &&
            s7.pending2 == [Save(1, a)] && Log(After(s7, Drain).database) == [other, b, a]
  {
    var a, b := Statement(zoom, x, y, older, true), Statement(zoom, x, y, newer, true);
    var s5 := State([], [Save(1, a)], [Save(0, other)], Nobody, [other, a]);
    assert Behind(s5, Win(b))[0] == Save(1, a);
  }
}
