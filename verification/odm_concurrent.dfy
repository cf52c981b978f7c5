/**
  Concurrent Saves (odm/odm_collection.go): count, clock reading and upsert are separate steps, each
  atomic, in any interleaving; counts and updates may fail.
 */
module OdmConcurrent {
  import opened Wrappers
  import opened Odm

  /** How far a Save has come. */
  datatype Saving =
    | Converted(id: string, model: Doc)
    | Counted(id: string, model: Doc, seen: bool)
    | Clocked(id: string, seen: bool, doc: Doc)

  datatype System = System(store: Store, saves: map<nat, Saving>)

  datatype Action =
    | Begin(who: nat, id: string, model: Doc)
    | Count(who: nat, fails: bool)
    | ReadClock(who: nat, now: int)
    | Update(who: nat, fails: bool)

  /** An action that does not apply changes nothing. */
  function Step(s: System, a: Action): System {
    match a
    case Begin(who, id, model) =>
      if who in s.saves then s else s.(saves := s.saves[who := Converted(id, model)])
    case Count(who, fails) =>
      if who in s.saves && s.saves[who].Converted? then
        var Converted(id, model) := s.saves[who];
        s.(saves := s.saves[who := Counted(id, model, Seen(s.store, id, fails))])
      else s
    case ReadClock(who, now) =>
      if who in s.saves && s.saves[who].Counted? then
        var Counted(id, model, seen) := s.saves[who];
        s.(saves := s.saves[who := Clocked(id, seen, Stamped(model, id, seen, now))])
      else s
    case Update(who, fails) =>
      if who in s.saves && s.saves[who].Clocked? then
        var Clocked(id, seen, doc) := s.saves[who];
        System(if fails then s.store else Upserted(s.store, id, doc), s.saves - {who})
      else s
  }

  function Run(s: System, actions: seq<Action>): System {
    if actions == [] then s else Step(Run(s, actions[..|actions| - 1]), actions[|actions| - 1])
  }

  /** A Save run on its own is the sequential one. */
  lemma {:induction false} AloneIsSave(store: Store, who: nat, id: string, model: Doc, countFails: bool, now: int,
                                       updateFails: bool)
    ensures var actions := [Begin(who, id, model), Count(who, countFails),
                            ReadClock(who, now), Update(who, updateFails)];
      Run(System(store, map[]), actions)
      == System(if updateFails then store else SavedStore(store, id, model, countFails, now), map[])
  {
    var s0 := System(store, map[]);
    var (a, b, c, d) := (Begin(who, id, model), Count(who, countFails), ReadClock(who, now), Update(who, updateFails));
    assert [a][..0] == [] && [a, b][..1] == [a] && [a, b, c][..2] == [a, b] && [a, b, c, d][..3] == [a, b, c];
    assert Run(s0, [a]) == Step(s0, a);
    assert Run(s0, [a, b]) == Step(Run(s0, [a]), b);
    assert Run(s0, [a, b, c]) == Step(Run(s0, [a, b]), c);
    assert Run(s0, [a, b, c, d]) == Step(Run(s0, [a, b, c]), d);
  }

  // ---------- createdOn is always there ----------

  predicate SavingSafe(store: Store, v: Saving) {
    match v
    case Converted(_, _) => true
    case Counted(id, _, seen) => seen ==> id in store
    case Clocked(id, seen, doc) => if seen then id in store else "createdOn" in doc
  }

  /** Every document carries createdOn, and a Save that saw its document still has it stored. */
  predicate Safe(s: System) {
    && (forall id :: id in s.store ==> "createdOn" in s.store[id])
    && (forall who :: who in s.saves ==> SavingSafe(s.store, s.saves[who]))
  }

  lemma {:induction false} StepSafe(s: System, a: Action)
    requires Safe(s)
    ensures Safe(Step(s, a))
    ensures s.store.Keys <= Step(s, a).store.Keys
  {
    var s' := Step(s, a);
    forall who | who in s'.saves ensures SavingSafe(s'.store, s'.saves[who]) {
      if who in s.saves && s'.saves[who] == s.saves[who] {
        assert SavingSafe(s.store, s.saves[who]);
      }
    }
    if a.Update? && a.who in s.saves {
      assert SavingSafe(s.store, s.saves[a.who]);
    }
  }

  /** In every interleaving, whichever counts and updates fail. */
  lemma {:induction false} RunSafe(s: System, actions: seq<Action>)
    requires Safe(s)
    ensures Safe(Run(s, actions))
  {
    if actions != [] {
      RunSafe(s, actions[..|actions| - 1]);
      StepSafe(Run(s, actions[..|actions| - 1]), actions[|actions| - 1]);
    }
  }

  // ---------- when createdOn is final ----------

  /** No Save in flight would write this document's createdOn. */
  predicate HarmlessTo(id: string, v: Saving) {
    v.id == id ==>
      match v
      case Converted(_, model) => "createdOn" !in model
      case Counted(_, model, seen) => seen && "createdOn" !in model
      case Clocked(_, _, doc) => "createdOn" !in doc
  }

  predicate Settled(s: System, id: string) {
    id in s.store && forall who :: who in s.saves ==> HarmlessTo(id, s.saves[who])
  }

  /** No count fails, and models bring no createdOn of their own. */
  predicate Calm(a: Action) {
    (a.Count? ==> !a.fails) && (a.Begin? ==> "createdOn" !in a.model)
  }

  function CreatedOn(s: System, id: string): Option<Field> {
    if id in s.store && "createdOn" in s.store[id] then Some(s.store[id]["createdOn"]) else None
  }

  lemma {:induction false} StepSettled(s: System, a: Action, id: string)
    requires Settled(s, id) && Calm(a)
    ensures Settled(Step(s, a), id) && CreatedOn(Step(s, a), id) == CreatedOn(s, id)
  {
    var s' := Step(s, a);
    forall who | who in s'.saves ensures HarmlessTo(id, s'.saves[who]) {
      if who in s.saves {
        assert HarmlessTo(id, s.saves[who]);
      }
    }
    if a.Update? && a.who in s.saves {
      assert HarmlessTo(id, s.saves[a.who]);
    }
  }

  /**
    Once a document is stored and no Save that missed it is under way, its createdOn stays as it is,
    whatever Saves start later and however they interleave, as long as no count fails.
   */
  lemma {:induction false} SettledForGood(s: System, actions: seq<Action>, id: string)
    requires Settled(s, id) && forall i :: 0 <= i < |actions| ==> Calm(actions[i])
    ensures Settled(Run(s, actions), id) && CreatedOn(Run(s, actions), id) == CreatedOn(s, id)
  {
    if actions != [] {
      SettledForGood(s, actions[..|actions| - 1], id);
      StepSettled(Run(s, actions[..|actions| - 1]), actions[|actions| - 1], id);
    }
  }

  // ---------- which stamps are stored ----------

  /** The stamp that a Save writes, by whether it saw its document. */
  function StampOf(seen: bool): string {
    if seen then "updatedOn" else "createdOn"
  }

  function StampIn(s: System, id: string, stamp: string): Option<Field> {
    if id in s.store && stamp in s.store[id] then Some(s.store[id][stamp]) else None
  }

  /** The clock reading that the Save in progress under `who` took. */
  function Reading(s: System, actions: seq<Action>, who: nat): Option<int> {
    if actions == [] then None
    else
      var (init, a) := (actions[..|actions| - 1], actions[|actions| - 1]);
      var saves := Run(s, init).saves;
      if a.ReadClock? && a.who == who && who in saves && saves[who].Counted? then Some(a.now)
      else Reading(s, init, who)
  }

  /** The action writes the document for a Save that had seen it, or that had missed it. */
  predicate Writes(s: System, a: Action, id: string, seen: bool) {
    && a.Update? && !a.fails && a.who in s.saves
    && s.saves[a.who].Clocked? && s.saves[a.who].id == id && s.saves[a.who].seen == seen
  }

  /** The reading of the last such Save, or the stamp that the document started with. */
  function LastWrite(s: System, actions: seq<Action>, id: string, seen: bool): Option<Field> {
    if actions == [] then StampIn(s, id, StampOf(seen))
    else
      var (init, a) := (actions[..|actions| - 1], actions[|actions| - 1]);
      if Writes(Run(s, init), a, id, seen) then
        var t := Reading(s, init, a.who);
        if t.Some? then Some(Int64(t.value)) else None
      else LastWrite(s, init, id, seen)
  }

  /** Models bring no such stamp of their own. */
  predicate Unstamped(actions: seq<Action>, stamp: string) {
    forall i :: 0 <= i < |actions| && actions[i].Begin? ==> stamp !in actions[i].model
  }

  /** A Save carries its reading as this stamp exactly when it is the one that it writes. */
  predicate Carries(v: Saving, reading: Option<int>, seen: bool) {
    match v
    case Converted(_, model) => StampOf(seen) !in model
    case Counted(_, model, _) => StampOf(seen) !in model
    case Clocked(_, saw, doc) =>
      if saw != seen then StampOf(seen) !in doc
      else reading.Some? && StampOf(seen) in doc && doc[StampOf(seen)] == Int64(reading.value)
  }

  lemma {:induction false} SavesCarryReadings(s: System, actions: seq<Action>, who: nat, seen: bool)
    requires s.saves == map[] && Unstamped(actions, StampOf(seen)) && who in Run(s, actions).saves
    ensures Carries(Run(s, actions).saves[who], Reading(s, actions, who), seen)
  {
    if actions != [] {
      var (init, a) := (actions[..|actions| - 1], actions[|actions| - 1]);
      if who in Run(s, init).saves {
        SavesCarryReadings(s, init, who, seen);
      }
    }
  }

  /**
    In every interleaving, whichever counts and updates fail: the stored createdOn is the clock reading
    of the last Save that wrote the document after having missed it, the stored updatedOn that of the
    last one that had seen it, and without such a Save each is as it was at the start.
   */
  lemma {:induction false} StampIsLastWrite(s: System, actions: seq<Action>, id: string, seen: bool)
    requires s.saves == map[] && Unstamped(actions, StampOf(seen))
    ensures StampIn(Run(s, actions), id, StampOf(seen)) == LastWrite(s, actions, id, seen)
  {
    if actions != [] {
      var (init, a) := (actions[..|actions| - 1], actions[|actions| - 1]);
      StampIsLastWrite(s, init, id, seen);
      if a.Update? && a.who in Run(s, init).saves {
        SavesCarryReadings(s, init, a.who, seen);
      }
    }
  }

  /** So the next update moves a stamp exactly when it is the one its Save writes and the reading is another. */
  lemma {:induction false} UpdateMovesStampIff(s: System, actions: seq<Action>, who: nat, seen: bool)
    requires s.saves == map[] && Unstamped(actions, StampOf(seen))
    requires who in Run(s, actions).saves && Run(s, actions).saves[who].Clocked?
    ensures var (before, after) := (Run(s, actions), Run(s, actions + [Update(who, false)]));
      var (Clocked(id, saw, _), reading) := (before.saves[who], Reading(s, actions, who));
      StampIn(after, id, StampOf(seen)) != StampIn(before, id, StampOf(seen)) <==>
        saw == seen && reading.Some? && StampIn(before, id, StampOf(seen)) != Some(Int64(reading.value))
  {
    assert (actions + [Update(who, false)])[..|actions|] == actions;
    SavesCarryReadings(s, actions, who, seen);
  }

  /** Both Saves count before either updates, so both miss the document. */
  lemma {:induction false} BothMiss(id: string, m: Doc, n: Doc)
    ensures Run(System(map[], map[]), [Begin(0, id, m), Begin(1, id, n), Count(0, false), Count(1, false)])
         == System(map[], map[0 := Counted(id, m, false), 1 := Counted(id, n, false)])
  {
    hide Run, Stamped, Upserted;
    var s0 := System(map[], map[]);
    var (begins, counts) := ([Begin(0, id, m), Begin(1, id, n)], [Count(0, false), Count(1, false)]);
    var begun := System(map[], map[0 := Converted(id, m), 1 := Converted(id, n)]);
    RunTwo(s0, begins[0], begins[1]);
    RunTwo(begun, counts[0], counts[1]);
    RunConcat(s0, begins, counts);
    assert begins + counts == [Begin(0, id, m), Begin(1, id, n), Count(0, false), Count(1, false)];
  }

  lemma {:induction false} BothUpdate(id: string, d: Doc, e: Doc)
    ensures Run(System(map[], map[0 := Clocked(id, false, d), 1 := Clocked(id, false, e)]),
                [Update(0, false), Update(1, false)])
         == System(map[id := d + e], map[])
  {
    hide Run, Stamped;
    var clocked := System(map[], map[0 := Clocked(id, false, d), 1 := Clocked(id, false, e)]);
    RunTwo(clocked, Update(0, false), Update(1, false));
    var s1 := Step(clocked, Update(0, false));
    assert s1.store == map[id := d] && s1.saves == map[1 := Clocked(id, false, e)];
  }

  lemma {:induction false} BothReadClock(id: string, m: Doc, n: Doc, t: int, u: int)
    ensures Run(System(map[], map[0 := Counted(id, m, false), 1 := Counted(id, n, false)]),
                [ReadClock(0, t), ReadClock(1, u)])
         == System(map[], map[0 := Clocked(id, false, Stamped(m, id, false, t)),
                              1 := Clocked(id, false, Stamped(n, id, false, u))])
  {
    hide Run, Stamped;
    var s := System(map[], map[0 := Counted(id, m, false), 1 := Counted(id, n, false)]);
    RunTwo(s, ReadClock(0, t), ReadClock(1, u));
  }

  /** So two first Saves that overlap leave the later clock reading as createdOn, and no updatedOn. */
  lemma {:induction false} OverlappingInserts(id: string, m: Doc, n: Doc, t: int, u: int)
    requires NoStamps(m) && NoStamps(n)
    ensures var actions := [Begin(0, id, m), Begin(1, id, n), Count(0, false), Count(1, false)]
                         + [ReadClock(0, t), ReadClock(1, u)] + [Update(0, false), Update(1, false)];
      var d := Run(System(map[], map[]), actions).store;
      id in d && "createdOn" in d[id] && d[id]["createdOn"] == Int64(u) && "updatedOn" !in d[id]
  {
    var s0 := System(map[], map[]);
    var start := [Begin(0, id, m), Begin(1, id, n), Count(0, false), Count(1, false)];
    BothMiss(id, m, n);
    BothReadClock(id, m, n, t, u);
    BothUpdate(id, Stamped(m, id, false, t), Stamped(n, id, false, u));
    RunConcat(s0, start, [ReadClock(0, t), ReadClock(1, u)]);
    RunConcat(s0, start + [ReadClock(0, t), ReadClock(1, u)], [Update(0, false), Update(1, false)]);
  }

  lemma {:induction false} RunTwo(s: System, a: Action, b: Action)
    ensures Run(s, [a, b]) == Step(Step(s, a), b)
  {
    assert [a, b][..1] == [a] && [a][..0] == [];
    assert Run(s, [a]) == Step(s, a);
  }

  lemma {:induction false} RunConcat(s: System, xs: seq<Action>, ys: seq<Action>)
    ensures Run(s, xs + ys) == Run(Run(s, xs), ys)
  {
    if ys == [] {
      assert xs + ys == xs;
    } else {
      assert (xs + ys)[..|xs + ys| - 1] == xs + ys[..|ys| - 1];
      RunConcat(s, xs, ys[..|ys| - 1]);
    }
  }
}
