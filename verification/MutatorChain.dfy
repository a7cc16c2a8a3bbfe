/** What a bulk create does, as a function: the mutators of all builders form one chain, each builder's hooks
    around it, with a single batch insert at its end (`AccountCreateBulk.Save` in `ent/account_create.go`). */
module MutatorChain {
  import opened JsText

  /** What a builder's mutation asks for; the id is optional. */
  datatype Input = Input(values: map<string, string>, id: Option<string>)

  /** A mutation as it stands. */
  datatype Held = Held(input: Input, done: bool)

  /** What is inserted, and the entity handed back. */
  datatype Spec = Spec(id: Option<string>, values: map<string, string>)

  datatype Node = Node(id: string, values: map<string, string>)

  datatype Error = Check(message: string) | Hook(message: string) | Constraint(message: string) | Database(message: string)

  /** A hook wraps the next mutator. It may edit the mutation it is handed, and then either stops with an answer of
      its own, success included, or calls the next mutator once and answers as it likes to what that reports.
      In a run a hook is entered at most once, so one action says all it does. */
  datatype Hook = HookNamed(name: string, edit: Input -> Input, action: Action)

  datatype Action = Stop(report: Option<Error>) | Through(answer: Option<Error> -> Option<Error>)

  datatype Mutator = Base(i: nat) | Wrapped(hook: Hook, next: Mutator)

  datatype Event = Enter(name: string) | Exit(name: string) | BatchCreate

  datatype DbFault = DbFault(message: string, isConstraint: bool)

  /** The builders' mutations, known by keys that may repeat (a builder may be given twice), and what a run of the
      chain depends on. */
  datatype Context<K> = Context(
    slots: seq<K>,
    mutators: seq<Mutator>,
    check: Input -> Option<string>,
    database: seq<Spec> -> Option<DbFault>)

  /** `done` are the builders that marked their mutation done, `specs` the specs made so far. */
  datatype Effect<K> = Effect(
    error: Option<Error>, trace: seq<Event>, batches: seq<seq<Spec>>, done: set<nat>, specs: seq<Spec>,
    store: map<K, Held>)

  function BaseIndex(m: Mutator): nat {
    match m
    case Base(i) => i
    case Wrapped(_, next) => BaseIndex(next)
  }

  /** `hooks[0](hooks[1](...(m)))`. */
  function Wrap(hooks: seq<Hook>, m: Mutator): (w: Mutator)
    ensures BaseIndex(w) == BaseIndex(m)
  {
    if hooks == [] then m else Wrapped(hooks[0], Wrap(hooks[1..], m))
  }

  ghost predicate WellFormed<K>(c: Context<K>, store: map<K, Held>) {
    && |c.mutators| == |c.slots|
    && (forall k | 0 <= k < |c.mutators| :: BaseIndex(c.mutators[k]) == k)
    && (forall k | 0 <= k < |c.slots| :: c.slots[k] in store)
  }

  /** The chain can be entered at `m`: all builders before have made their specs. */
  ghost predicate Enterable<K>(c: Context<K>, m: Mutator, store: map<K, Held>, specs: seq<Spec>) {
    WellFormed(c, store) && BaseIndex(m) == |specs| < |c.slots|
  }

  function SpecOf(input: Input): Spec {
    Spec(input.id, input.values)
  }

  function NodeOf(spec: Spec): Node {
    Node(if spec.id.Some? then spec.id.value else "", spec.values)
  }

  function DbError(fault: Option<DbFault>): Option<Error> {
    match fault
    case None => None
    case Some(f) => Some(if f.isConstraint then Constraint(f.message) else Database(f.message))
  }

  function Bracket(name: string, inner: seq<Event>): seq<Event> {
    [Enter(name)] + inner + [Exit(name)]
  }

  function Edited(held: Held, edit: Input -> Input): Held {
    Held(edit(held.input), held.done)
  }

  function Marked(held: Held, spec: Spec): Held {
    Held(Input(held.input.values, Some(NodeOf(spec).id)), true)
  }

  /** The mutations once `hook` has edited that of builder `i`. */
  ghost function HandOn<K>(c: Context<K>, hook: Hook, store: map<K, Held>, i: nat): (s: map<K, Held>)
    requires i < |c.slots| && c.slots[i] in store
    ensures s.Keys == store.Keys
    ensures WellFormed(c, store) ==> WellFormed(c, s)
  {
    store[c.slots[i] := Edited(store[c.slots[i]], hook.edit)]
  }

  /** The effect of calling mutator `m` on mutations that stand as in `store`. */
  ghost function Run<K>(c: Context<K>, m: Mutator, store: map<K, Held>, specs: seq<Spec>): (e: Effect<K>)
    requires Enterable(c, m, store, specs)
    ensures e.store.Keys == store.Keys && specs <= e.specs && |e.specs| <= |c.slots|
    decreases |c.slots| - BaseIndex(m), m
  {
    match m
    case Wrapped(hook, next) =>
      var edited := HandOn(c, hook, store, |specs|);
      (match hook.action
       case Stop(report) => Effect(report, Bracket(hook.name, []), [], {}, specs, edited)
       case Through(answer) =>
         var e := Run(c, next, edited, specs);
         e.(error := answer(e.error), trace := Bracket(hook.name, e.trace)))
    case Base(i) =>
      var slot, input := c.slots[i], store[c.slots[i]].input;
      if c.check(input).Some? then Effect(Some(Check(c.check(input).value)), [], [], {}, specs, store)
      else
        var e := After(c, i, store, specs + [SpecOf(input)]);
        if e.error.Some? then e
        else e.(done := e.done + {i}, store := e.store[slot := Marked(e.store[slot], e.specs[i])])
  }

  /** What follows once builder `i` has made its spec: the next builder's mutator, or the insert. */
  ghost function After<K>(c: Context<K>, i: nat, store: map<K, Held>, specs: seq<Spec>): (e: Effect<K>)
    requires WellFormed(c, store) && i + 1 == |specs| <= |c.slots|
    ensures e.store.Keys == store.Keys && specs <= e.specs && |e.specs| <= |c.slots|
    decreases |c.slots| - i, Base(i), 0
  {
    if i < |c.slots| - 1 then Run(c, c.mutators[i + 1], store, specs)
    else Effect(DbError(c.database(specs)), [BatchCreate], [specs], {}, specs, store)
  }

  ghost function From(i: nat, n: nat): (s: set<nat>)
    ensures forall k: nat :: k in s <==> i <= k < n
    decreases n - i
  {
    if i >= n then {} else {i} + From(i + 1, n)
  }

  // ----- the way down -----

  /** The specs with which the insert is reached, None if a hook stops before or a check fails. */
  ghost function Arrives<K>(c: Context<K>, m: Mutator, store: map<K, Held>, specs: seq<Spec>): (all: Option<seq<Spec>>)
    requires Enterable(c, m, store, specs)
    ensures all.Some? ==> |all.value| == |c.slots|
    decreases |c.slots| - BaseIndex(m), m
  {
    match m
    case Wrapped(hook, next) =>
      if hook.action.Stop? then None else Arrives(c, next, HandOn(c, hook, store, |specs|), specs)
    case Base(i) =>
      var input := store[c.slots[i]].input;
      if c.check(input).Some? then None
      else if i < |c.slots| - 1 then Arrives(c, c.mutators[i + 1], store, specs + [SpecOf(input)])
      else Some(specs + [SpecOf(input)])
  }

  /** The insert is reached, and the database takes it. */
  ghost predicate Taken<K>(c: Context<K>, m: Mutator, store: map<K, Held>, specs: seq<Spec>)
    requires Enterable(c, m, store, specs)
  {
    var all := Arrives(c, m, store, specs);
    all.Some? && c.database(all.value).None?
  }

  predicate Stops(m: Mutator) {
    m.Wrapped? && (m.hook.action.Stop? || Stops(m.next))
  }

  /** An input after all hooks of a mutator have edited it. */
  function EditedBy(m: Mutator, input: Input): Input {
    match m
    case Base(_) => input
    case Wrapped(hook, next) => EditedBy(next, hook.edit(input))
  }

  ghost function AfterHooks<K>(c: Context<K>, store: map<K, Held>, k: nat): (s: map<K, Held>)
    requires WellFormed(c, store) && k < |c.slots|
    ensures s.Keys == store.Keys
  {
    var slot := c.slots[k];
    store[slot := Held(EditedBy(c.mutators[k], store[slot].input), store[slot].done)]
  }

  /** The mutations as builder `k` finds them. */
  ghost function StoreAt<K>(c: Context<K>, store: map<K, Held>, k: nat): (s: map<K, Held>)
    requires WellFormed(c, store) && k <= |c.slots|
    ensures s.Keys == store.Keys
  {
    if k == 0 then store else AfterHooks(c, StoreAt(c, store, k - 1), k - 1)
  }

  /** What builder `k` inserts if all goes well. */
  ghost function FinalInput<K>(c: Context<K>, store: map<K, Held>, k: nat): Input
    requires WellFormed(c, store) && k < |c.slots|
  {
    StoreAt(c, store, k + 1)[c.slots[k]].input
  }

  ghost function AllSpecs<K>(c: Context<K>, store: map<K, Held>): (specs: seq<Spec>)
    requires WellFormed(c, store)
    ensures |specs| == |c.slots|
    ensures forall k | 0 <= k < |specs| ::
              specs[k] == SpecOf(FinalInput(c, store, k))
              && specs[k].id == FinalInput(c, store, k).id && specs[k].values == FinalInput(c, store, k).values
  {
    seq(|c.slots|, k requires 0 <= k < |c.slots| => SpecOf(FinalInput(c, store, k)))
  }

  /** From builder `k` on, no hook stops and every check passes. */
  ghost predicate ClearFrom<K>(c: Context<K>, store: map<K, Held>, k: nat)
    requires WellFormed(c, store)
  {
    forall j | k <= j < |c.slots| :: !Stops(c.mutators[j]) && c.check(FinalInput(c, store, j)).None?
  }

  lemma {:induction false} ArrivesThroughHooks<K>(c: Context<K>, m: Mutator, store: map<K, Held>, specs: seq<Spec>)
    requires Enterable(c, m, store, specs)
    ensures var slot := c.slots[|specs|];
            Arrives(c, m, store, specs)
            == if Stops(m) then None
               else Arrives(c, Base(|specs|), store[slot := Held(EditedBy(m, store[slot].input), store[slot].done)], specs)
  {
    var slot := c.slots[|specs|];
    match m
    case Wrapped(hook, next) =>
      var edited := HandOn(c, hook, store, |specs|);
      ArrivesThroughHooks(c, next, edited, specs);
      assert edited[slot := Held(EditedBy(m, store[slot].input), store[slot].done)]
          == store[slot := Held(EditedBy(m, store[slot].input), store[slot].done)];
    case Base(i) =>
      assert store[slot := Held(store[slot].input, store[slot].done)] == store;
  }

  /** What `Arrives` says once the builders before `k` have been passed. */
  ghost function ArrivesAt<K>(c: Context<K>, store: map<K, Held>, k: nat): Option<seq<Spec>>
    requires WellFormed(c, store) && k < |c.slots|
  {
    Arrives(c, c.mutators[k], StoreAt(c, store, k), AllSpecs(c, store)[..k])
  }

  lemma ArrivesBase<K>(c: Context<K>, store: map<K, Held>, specs: seq<Spec>, i: nat)
    requires WellFormed(c, store) && i == |specs| < |c.slots|
    ensures var input := store[c.slots[i]].input;
            Arrives(c, Base(i), store, specs)
            == if c.check(input).Some? then None
               else if i < |c.slots| - 1 then Arrives(c, c.mutators[i + 1], store, specs + [SpecOf(input)])
               else Some(specs + [SpecOf(input)])
  {
  }

  lemma ArrivesStep<K>(c: Context<K>, store: map<K, Held>, k: nat)
    requires WellFormed(c, store) && k < |c.slots|
    ensures ArrivesAt(c, store, k)
            == if Stops(c.mutators[k]) || c.check(FinalInput(c, store, k)).Some? then None
               else if k < |c.slots| - 1 then ArrivesAt(c, store, k + 1) else Some(AllSpecs(c, store))
  {
    var specs, next := AllSpecs(c, store), StoreAt(c, store, k + 1);
    ArrivesThroughHooks(c, c.mutators[k], StoreAt(c, store, k), specs[..k]);
    assert next == AfterHooks(c, StoreAt(c, store, k), k);
    ArrivesBase(c, next, specs[..k], k);
    assert specs[..k] + [SpecOf(FinalInput(c, store, k))] == specs[..k + 1];
    assert specs[..|specs|] == specs;
  }

  /** The way down from builder `k`, builder by builder. */
  ghost function WayFrom<K>(c: Context<K>, store: map<K, Held>, k: nat): Option<seq<Spec>>
    requires WellFormed(c, store) && k < |c.slots|
    decreases |c.slots| - k
  {
    if Stops(c.mutators[k]) || c.check(FinalInput(c, store, k)).Some? then None
    else if k < |c.slots| - 1 then WayFrom(c, store, k + 1)
    else Some(AllSpecs(c, store))
  }

  lemma {:induction false} ArrivesOnTheWay<K>(c: Context<K>, store: map<K, Held>, k: nat)
    requires WellFormed(c, store) && k < |c.slots|
    ensures ArrivesAt(c, store, k) == WayFrom(c, store, k)
    decreases |c.slots| - k
  {
    ArrivesStep(c, store, k);
    if k < |c.slots| - 1 {
      ArrivesOnTheWay(c, store, k + 1);
    }
  }

  lemma {:induction false} WayIsClear<K>(c: Context<K>, store: map<K, Held>, k: nat)
    requires WellFormed(c, store) && k < |c.slots|
    ensures WayFrom(c, store, k) == if ClearFrom(c, store, k) then Some(AllSpecs(c, store)) else None
    decreases |c.slots| - k
  {
    if k < |c.slots| - 1 {
      WayIsClear(c, store, k + 1);
    }
  }

  /** The insert is reached exactly when no hook stops and every check passes, with the specs of all builders in
      order. */
  lemma ArrivesIff<K>(c: Context<K>, store: map<K, Held>)
    requires WellFormed(c, store) && c.slots != []
    ensures Arrives(c, c.mutators[0], store, [])
            == if ClearFrom(c, store, 0) then Some(AllSpecs(c, store)) else None
  {
    ArrivesOnTheWay(c, store, 0);
    WayIsClear(c, store, 0);
    assert AllSpecs(c, store)[..0] == [];
  }

  /** Builders that share no mutation insert what their own hooks make of their own input. */
  lemma OwnInputs<K>(c: Context<K>, store: map<K, Held>, k: nat)
    requires WellFormed(c, store) && k < |c.slots|
    requires forall i, j | 0 <= i < j < |c.slots| :: c.slots[i] != c.slots[j]
    ensures FinalInput(c, store, k) == EditedBy(c.mutators[k], store[c.slots[k]].input)
  {
    UntouchedBefore(c, store, k, k);
  }

  lemma {:induction false} UntouchedBefore<K>(c: Context<K>, store: map<K, Held>, k: nat, j: nat)
    requires WellFormed(c, store) && j <= k < |c.slots|
    requires forall i | 0 <= i < k :: c.slots[i] != c.slots[k]
    ensures StoreAt(c, store, j)[c.slots[k]] == store[c.slots[k]]
  {
    if j > 0 {
      UntouchedBefore(c, store, k, j - 1);
    }
  }

  // ----- exactly when a run is all or nothing -----

  /** Success means one insert of a spec for every builder, which the database took, and every mutation done; failure
      that nothing is inserted and no mutation marked done. */
  ghost predicate IsAllOrNothing<K>(c: Context<K>, m: Mutator, store: map<K, Held>, specs: seq<Spec>)
    requires Enterable(c, m, store, specs)
  {
    var e := Run(c, m, store, specs);
    if e.error.None? then
      && |e.batches| == 1 && |e.batches[0]| == |c.slots| && c.database(e.batches[0]).None?
      && e.done == From(|specs|, |c.slots|)
    else
      e.done == {} && forall batch | batch in e.batches :: c.database(batch).Some?
  }

  /** What the mutators on the way down report, that of `m` first. */
  ghost function Reports<K>(c: Context<K>, m: Mutator, store: map<K, Held>, specs: seq<Spec>)
    : (reports: seq<Option<Error>>)
    requires Enterable(c, m, store, specs)
    ensures reports != []
    decreases |c.slots| - BaseIndex(m), m
  {
    match m
    case Wrapped(hook, next) =>
      (match hook.action
       case Stop(report) => [report]
       case Through(answer) =>
         var below := Reports(c, next, HandOn(c, hook, store, |specs|), specs);
         [answer(below[0])] + below[1..])
    case Base(i) =>
      var input := store[c.slots[i]].input;
      if c.check(input).Some? then [Some(Check(c.check(input).value))]
      else if i < |c.slots| - 1 then
        var below := Reports(c, c.mutators[i + 1], store, specs + [SpecOf(input)]);
        [below[0]] + below
      else [DbError(c.database(specs + [SpecOf(input)]))]
  }

  /** The builders that mark their mutation done are those told of a success: by the next builder's mutator, or at
      the end of the way by the database. */
  ghost predicate ToldOfSuccess(reports: seq<Option<Error>>, taken: bool, first: nat, k: nat) {
    || (first <= k < first + |reports| - 1 && reports[k - first + 1].None?)
    || (k == first + |reports| - 1 && taken)
  }

  ghost predicate ComesTo<K>(c: Context<K>, m: Mutator, store: map<K, Held>, specs: seq<Spec>)
    requires Enterable(c, m, store, specs)
  {
    var e, reports, all := Run(c, m, store, specs), Reports(c, m, store, specs), Arrives(c, m, store, specs);
    && e.error == reports[0]
    && e.batches == (if all.Some? then [all.value] else [])
    && |specs| + |reports| <= |c.slots|
    && (all.Some? ==> |specs| + |reports| == |c.slots|)
  }

  lemma FateOfHook<K>(c: Context<K>, hook: Hook, next: Mutator, store: map<K, Held>, specs: seq<Spec>)
    requires Enterable(c, next, store, specs)
    requires hook.action.Through? ==> ComesTo(c, next, HandOn(c, hook, store, |specs|), specs)
    ensures ComesTo(c, Wrapped(hook, next), store, specs)
  {
  }

  lemma FateOfBase<K>(c: Context<K>, i: nat, store: map<K, Held>, specs: seq<Spec>)
    requires WellFormed(c, store) && i == |specs| < |c.slots|
    requires i < |c.slots| - 1 ==> ComesTo(c, c.mutators[i + 1], store, specs + [SpecOf(store[c.slots[i]].input)])
    ensures ComesTo(c, Base(i), store, specs)
  {
  }

  /** What a run reports and inserts, whatever its hooks do. */
  lemma {:induction false} Fate<K>(c: Context<K>, m: Mutator, store: map<K, Held>, specs: seq<Spec>)
    requires Enterable(c, m, store, specs)
    ensures ComesTo(c, m, store, specs)
    decreases |c.slots| - BaseIndex(m), m
  {
    match m
    case Wrapped(hook, next) =>
      if hook.action.Through? {
        Fate(c, next, HandOn(c, hook, store, |specs|), specs);
      }
      FateOfHook(c, hook, next, store, specs);
    case Base(i) =>
      if i < |c.slots| - 1 {
        Fate(c, c.mutators[i + 1], store, specs + [SpecOf(store[c.slots[i]].input)]);
      }
      FateOfBase(c, i, store, specs);
  }

  /** What is inserted are the specs made. */
  lemma {:induction false} SpecsInserted<K>(c: Context<K>, m: Mutator, store: map<K, Held>, specs: seq<Spec>)
    requires Enterable(c, m, store, specs)
    ensures var e := Run(c, m, store, specs); e.batches == [] || e.batches == [e.specs]
    decreases |c.slots| - BaseIndex(m), m
  {
    match m
    case Wrapped(hook, next) =>
      if hook.action.Through? {
        SpecsInserted(c, next, HandOn(c, hook, store, |specs|), specs);
      }
    case Base(i) =>
      if i < |c.slots| - 1 {
        SpecsInserted(c, c.mutators[i + 1], store, specs + [SpecOf(store[c.slots[i]].input)]);
      }
  }

  ghost predicate MarksTheTold<K>(c: Context<K>, m: Mutator, store: map<K, Held>, specs: seq<Spec>)
    requires Enterable(c, m, store, specs)
  {
    forall k: nat :: k in Run(c, m, store, specs).done
                     <==> ToldOfSuccess(Reports(c, m, store, specs), Taken(c, m, store, specs), |specs|, k)
  }

  lemma DoneByHook<K>(c: Context<K>, hook: Hook, next: Mutator, store: map<K, Held>, specs: seq<Spec>)
    requires Enterable(c, next, store, specs)
    requires hook.action.Through? ==> MarksTheTold(c, next, HandOn(c, hook, store, |specs|), specs)
    ensures MarksTheTold(c, Wrapped(hook, next), store, specs)
  {
    if hook.action.Through? {
      var below := Reports(c, next, HandOn(c, hook, store, |specs|), specs);
      var reports := Reports(c, Wrapped(hook, next), store, specs);
      assert |reports| == |below| && forall j | 0 < j < |below| :: reports[j] == below[j];
    }
  }

  lemma DoneByBase<K>(c: Context<K>, i: nat, store: map<K, Held>, specs: seq<Spec>)
    requires WellFormed(c, store) && i == |specs| < |c.slots|
    requires i < |c.slots| - 1 ==>
               var made := specs + [SpecOf(store[c.slots[i]].input)];
               ComesTo(c, c.mutators[i + 1], store, made) && MarksTheTold(c, c.mutators[i + 1], store, made)
    ensures MarksTheTold(c, Base(i), store, specs)
  {
    if i < |c.slots| - 1 {
      var made := specs + [SpecOf(store[c.slots[i]].input)];
      ToldOneUp(Reports(c, c.mutators[i + 1], store, made), Taken(c, c.mutators[i + 1], store, made), i);
    }
  }

  /** Which builders it marks done. */
  lemma {:induction false} DoneAre<K>(c: Context<K>, m: Mutator, store: map<K, Held>, specs: seq<Spec>)
    requires Enterable(c, m, store, specs)
    ensures MarksTheTold(c, m, store, specs)
    decreases |c.slots| - BaseIndex(m), m
  {
    match m
    case Wrapped(hook, next) =>
      if hook.action.Through? {
        DoneAre(c, next, HandOn(c, hook, store, |specs|), specs);
      }
      DoneByHook(c, hook, next, store, specs);
    case Base(i) =>
      if i < |c.slots| - 1 {
        Fate(c, c.mutators[i + 1], store, specs + [SpecOf(store[c.slots[i]].input)]);
        DoneAre(c, c.mutators[i + 1], store, specs + [SpecOf(store[c.slots[i]].input)]);
      }
      DoneByBase(c, i, store, specs);
  }

  lemma ToldOneUp(below: seq<Option<Error>>, taken: bool, i: nat)
    requires below != []
    ensures forall k: nat :: ToldOfSuccess([below[0]] + below, taken, i, k)
                             <==> ToldOfSuccess(below, taken, i + 1, k) || (k == i && below[0].None?)
  {
    var up := [below[0]] + below;
    forall k: nat
      ensures ToldOfSuccess(up, taken, i, k) <==> ToldOfSuccess(below, taken, i + 1, k) || (k == i && below[0].None?)
    {
      assert i < k < i + |below| ==> up[k - i + 1] == below[k - (i + 1) + 1];
    }
  }

  /** Whatever hooks do that call on at most once, a run is all or nothing exactly when every mutator on the way
      reports success if the insert is reached and taken, and a failure if it is not. */
  lemma AllOrNothingIff<K>(c: Context<K>, m: Mutator, store: map<K, Held>, specs: seq<Spec>)
    requires Enterable(c, m, store, specs)
    ensures IsAllOrNothing(c, m, store, specs)
            <==> forall report | report in Reports(c, m, store, specs) ::
                   report.None? <==> Taken(c, m, store, specs)
  {
    var e, reports, taken := Run(c, m, store, specs), Reports(c, m, store, specs), Taken(c, m, store, specs);
    Fate(c, m, store, specs);
    DoneAre(c, m, store, specs);
    if IsAllOrNothing(c, m, store, specs) {
      forall j | 0 <= j < |reports| ensures reports[j].None? <==> taken {
        if j > 0 {
          assert |specs| + j - 1 in e.done <==> reports[j].None?;
        }
      }
    }
    if forall report | report in reports :: report.None? <==> taken {
      assert forall j | 0 <= j < |reports| :: reports[j] in reports;
      assert taken ==> e.done == From(|specs|, |c.slots|);
    }
  }

  // ----- hooks that keep success and failure apart -----

  /** The hook stops with an error only, and answers success to success and a failure to a failure. */
  ghost predicate IsHonest(hook: Hook) {
    match hook.action
    case Stop(report) => report.Some?
    case Through(answer) => forall below :: answer(below).None? <==> below.None?
  }

  ghost predicate Honest(m: Mutator) {
    m.Wrapped? ==> IsHonest(m.hook) && Honest(m.next)
  }

  ghost predicate AreHonest(hooks: seq<Hook>) {
    forall k | 0 <= k < |hooks| :: IsHonest(hooks[k])
  }

  lemma {:induction false} HonestWhenHooksAre(hooks: seq<Hook>, i: nat)
    requires AreHonest(hooks)
    ensures Honest(Wrap(hooks, Base(i)))
  {
    if hooks != [] {
      HonestWhenHooksAre(hooks[1..], i);
    }
  }

  lemma {:induction false} HonestReports<K>(c: Context<K>, m: Mutator, store: map<K, Held>, specs: seq<Spec>)
    requires Enterable(c, m, store, specs)
    requires Honest(m) && forall k | 0 <= k < |c.mutators| :: Honest(c.mutators[k])
    ensures forall report | report in Reports(c, m, store, specs) :: report.None? <==> Taken(c, m, store, specs)
    decreases |c.slots| - BaseIndex(m), m
  {
    match m
    case Wrapped(hook, next) =>
      if hook.action.Through? {
        var below := Reports(c, next, HandOn(c, hook, store, |specs|), specs);
        HonestReports(c, next, HandOn(c, hook, store, |specs|), specs);
        assert below[0] in below && forall report | report in below[1..] :: report in below;
      }
    case Base(i) =>
      var input := store[c.slots[i]].input;
      if c.check(input).None? && i < |c.slots| - 1 {
        var below := Reports(c, c.mutators[i + 1], store, specs + [SpecOf(input)]);
        HonestReports(c, c.mutators[i + 1], store, specs + [SpecOf(input)]);
        assert below[0] in below;
      }
  }

  /** With honest hooks a run is all or nothing from any mutator of the chain on, and succeeds exactly when the insert
      is reached and taken. */
  lemma AllOrNothingFrom<K>(c: Context<K>, m: Mutator, store: map<K, Held>, specs: seq<Spec>)
    requires Enterable(c, m, store, specs)
    requires Honest(m) && forall k | 0 <= k < |c.mutators| :: Honest(c.mutators[k])
    ensures IsAllOrNothing(c, m, store, specs)
    ensures Run(c, m, store, specs).error.None? <==> Taken(c, m, store, specs)
  {
    HonestReports(c, m, store, specs);
    AllOrNothingIff(c, m, store, specs);
    Fate(c, m, store, specs);
    assert Reports(c, m, store, specs)[0] in Reports(c, m, store, specs);
  }

  /** All or nothing for any number of builders and honest hooks, edits included: the batch insert runs at most once,
      exactly when no hook stops and every check has passed, with all specs in order; the call succeeds exactly
      when that insert does; and then every mutation is marked done, else none. */
  lemma AllOrNothing<K>(c: Context<K>, store: map<K, Held>)
    requires WellFormed(c, store) && c.slots != []
    requires forall k | 0 <= k < |c.mutators| :: Honest(c.mutators[k])
    ensures var e, clear := Run(c, c.mutators[0], store, []), ClearFrom(c, store, 0);
            && e.batches == (if clear then [AllSpecs(c, store)] else [])
            && (e.error.None? <==> clear && c.database(AllSpecs(c, store)).None?)
            && e.done == (if e.error.None? then From(0, |c.slots|) else {})
  {
    AllOrNothingFrom(c, c.mutators[0], store, []);
    Fate(c, c.mutators[0], store, []);
    ArrivesIff(c, store);
  }

  // ----- the marks -----

  /** Some builder that is done and shares `key` has given its node's id to the mutation. */
  ghost predicate CarriesNodeId<K>(c: Context<K>, e: Effect<K>, key: K)
    requires key in e.store
  {
    exists j: nat :: j in e.done && j < |c.slots| && j < |e.specs| && c.slots[j] == key
                     && e.store[key].input.id == Some(NodeOf(e.specs[j]).id)
  }

  /** The mutations of the builders that are done. */
  ghost function DoneKeys<K>(c: Context<K>, e: Effect<K>): set<K> {
    set k | k in e.done && k < |c.slots| :: c.slots[k]
  }

  ghost predicate MarksRight<K>(c: Context<K>, e: Effect<K>, store: map<K, Held>, first: nat) {
    && e.store.Keys == store.Keys
    && (forall k | k in e.done :: first <= k < |e.specs|)
    && (forall key | key in DoneKeys(c, e) :: key in store && e.store[key].done && CarriesNodeId(c, e, key))
    && (forall key | key in store && key !in DoneKeys(c, e) :: e.store[key].done == store[key].done)
  }

  /** The mutations marked done are those of the builders that are done, each with a node's id; all others keep
      their mark. */
  lemma {:induction false} MarksAre<K>(c: Context<K>, m: Mutator, store: map<K, Held>, specs: seq<Spec>)
    requires Enterable(c, m, store, specs)
    ensures MarksRight(c, Run(c, m, store, specs), store, |specs|)
    decreases |c.slots| - BaseIndex(m), m
  {
    match m
    case Wrapped(hook, next) =>
      if hook.action.Through? {
        MarksAre(c, next, HandOn(c, hook, store, |specs|), specs);
      }
      MarksHook(c, hook, next, store, specs);
    case Base(i) =>
      if i < |c.slots| - 1 {
        MarksAre(c, c.mutators[i + 1], store, specs + [SpecOf(store[c.slots[i]].input)]);
      }
      MarksBase(c, i, store, specs);
  }

  lemma MarksHook<K>(c: Context<K>, hook: Hook, next: Mutator, store: map<K, Held>, specs: seq<Spec>)
    requires Enterable(c, next, store, specs)
    requires hook.action.Through? ==>
               var edited := HandOn(c, hook, store, |specs|);
               MarksRight(c, Run(c, next, edited, specs), edited, |specs|)
    ensures MarksRight(c, Run(c, Wrapped(hook, next), store, specs), store, |specs|)
  {
    if hook.action.Through? {
      var edited := HandOn(c, hook, store, |specs|);
      MarksThrough(c, Run(c, next, edited, specs), Run(c, Wrapped(hook, next), store, specs), edited, store, |specs|);
    }
  }

  lemma MarksAfter<K>(c: Context<K>, i: nat, store: map<K, Held>, made: seq<Spec>)
    requires WellFormed(c, store) && i + 1 == |made| <= |c.slots|
    requires i < |c.slots| - 1 ==> MarksRight(c, Run(c, c.mutators[i + 1], store, made), store, i + 1)
    ensures MarksRight(c, After(c, i, store, made), store, i + 1)
  {
  }

  lemma MarksBase<K>(c: Context<K>, i: nat, store: map<K, Held>, specs: seq<Spec>)
    requires WellFormed(c, store) && i == |specs| < |c.slots|
    requires i < |c.slots| - 1 ==>
               var made := specs + [SpecOf(store[c.slots[i]].input)];
               MarksRight(c, Run(c, c.mutators[i + 1], store, made), store, i + 1)
    ensures MarksRight(c, Run(c, Base(i), store, specs), store, i)
  {
    var made := specs + [SpecOf(store[c.slots[i]].input)];
    MarksAfter(c, i, store, made);
    if After(c, i, store, made).error.None? {
      MarkOne(c, After(c, i, store, made), store, i);
    }
  }

  lemma MarksThrough<K>(c: Context<K>, below: Effect<K>, e: Effect<K>, edited: map<K, Held>, store: map<K, Held>,
                        first: nat)
    requires edited.Keys == store.Keys && forall key | key in store :: edited[key].done == store[key].done
    requires MarksRight(c, below, edited, first)
    requires e.done == below.done && e.specs == below.specs && e.store == below.store
    ensures MarksRight(c, e, store, first)
  {
    assert DoneKeys(c, e) == DoneKeys(c, below);
    forall key | key in DoneKeys(c, e) ensures CarriesNodeId(c, e, key) {
      assert CarriesNodeId(c, below, key);
    }
  }

  ghost function MarkedOne<K>(c: Context<K>, e: Effect<K>, i: nat): Effect<K>
    requires i < |c.slots| && i < |e.specs| && c.slots[i] in e.store
  {
    e.(done := e.done + {i}, store := e.store[c.slots[i] := Marked(e.store[c.slots[i]], e.specs[i])])
  }

  lemma OneMoreKey<K>(c: Context<K>, below: Effect<K>, i: nat)
    requires i < |c.slots| && i < |below.specs| && c.slots[i] in below.store
    ensures DoneKeys(c, MarkedOne(c, below, i)) == DoneKeys(c, below) + {c.slots[i]}
  {
    assert i in MarkedOne(c, below, i).done;
  }

  lemma MarkedKeys<K>(c: Context<K>, below: Effect<K>, store: map<K, Held>, i: nat, key: K)
    requires i < |c.slots| && i < |below.specs| && c.slots[i] in store
    requires MarksRight(c, below, store, i + 1) && (key in DoneKeys(c, below) || key == c.slots[i])
    ensures var e := MarkedOne(c, below, i); key in e.store && e.store[key].done && CarriesNodeId(c, e, key)
  {
    var e, slot := MarkedOne(c, below, i), c.slots[i];
    if key == slot {
      assert i in e.done && e.store[slot].input.id == Some(NodeOf(e.specs[i]).id);
    } else {
      StillCarries(c, below, key, i);
    }
  }

  lemma UnmarkedKeys<K>(c: Context<K>, below: Effect<K>, store: map<K, Held>, i: nat, key: K)
    requires i < |c.slots| && i < |below.specs| && c.slots[i] in store
    requires MarksRight(c, below, store, i + 1)
    requires key in store && key !in DoneKeys(c, below) && key != c.slots[i]
    ensures MarkedOne(c, below, i).store[key].done == store[key].done
  {
  }

  lemma MarkOne<K>(c: Context<K>, below: Effect<K>, store: map<K, Held>, i: nat)
    requires i < |c.slots| && i < |below.specs| && c.slots[i] in store
    requires MarksRight(c, below, store, i + 1)
    ensures MarksRight(c, MarkedOne(c, below, i), store, i)
  {
    var e, slot := MarkedOne(c, below, i), c.slots[i];
    OneMoreKey(c, below, i);
    assert e.store.Keys == store.Keys;
    forall key | key in DoneKeys(c, e) ensures key in store && e.store[key].done && CarriesNodeId(c, e, key) {
      MarkedKeys(c, below, store, i, key);
    }
    forall key | key in store && key !in DoneKeys(c, e) ensures e.store[key].done == store[key].done {
      UnmarkedKeys(c, below, store, i, key);
    }
  }

  lemma StillCarries<K>(c: Context<K>, below: Effect<K>, key: K, i: nat)
    requires i < |c.slots| && i < |below.specs| && c.slots[i] in below.store && key in below.store && key != c.slots[i]
    requires CarriesNodeId(c, below, key)
    ensures CarriesNodeId(c, MarkedOne(c, below, i), key)
  {
    var e := MarkedOne(c, below, i);
    var j: nat :| j in below.done && j < |c.slots| && j < |below.specs| && c.slots[j] == key
                  && below.store[key].input.id == Some(NodeOf(below.specs[j]).id);
    assert j in e.done && e.store[key] == below.store[key];
  }

  /** Honest hooks, seen from the mutations: success inserts all specs and marks every builder's mutation done, failure
      inserts nothing that the database took and marks none. */
  lemma HonestRun<K>(c: Context<K>, store: map<K, Held>)
    requires WellFormed(c, store) && c.slots != []
    requires forall k | 0 <= k < |c.mutators| :: Honest(c.mutators[k])
    ensures var e, all := Run(c, c.mutators[0], store, []), AllSpecs(c, store);
            if e.error.None? then
              && e.batches == [all] && e.specs == all && c.database(all).None?
              && forall k | 0 <= k < |c.slots| :: e.store[c.slots[k]].done
            else
              && (forall batch | batch in e.batches :: c.database(batch).Some?)
              && forall key | key in store :: e.store[key].done == store[key].done
  {
    var e := Run(c, c.mutators[0], store, []);
    AllOrNothing(c, store);
    MarksAre(c, c.mutators[0], store, []);
    SpecsInserted(c, c.mutators[0], store, []);
    if e.error.None? {
      forall k | 0 <= k < |c.slots| ensures c.slots[k] in DoneKeys(c, e) {
        assert k in e.done;
      }
    } else {
      assert DoneKeys(c, e) == {};
    }
  }

  // ----- missing values -----

  function WithDefaults(held: Held, defaults: map<string, string>): Held {
    Held(Input(defaults + held.input.values, held.input.id), held.done)
  }

  /** The mutations once the first `n` builders have set their missing values, each from its own defaults (its clock
      readings, say). */
  ghost function Prepared<K>(slots: seq<K>, defaults: nat -> map<string, string>, store: map<K, Held>, n: nat)
    : (s: map<K, Held>)
    requires n <= |slots| && forall k | 0 <= k < |slots| :: slots[k] in store
    ensures s.Keys == store.Keys
  {
    if n == 0 then store
    else
      var s := Prepared(slots, defaults, store, n - 1);
      s[slots[n - 1] := WithDefaults(s[slots[n - 1]], defaults(n - 1))]
  }

  /** Ids and marks stay, and nothing that was given is changed. */
  lemma {:induction false} PreparedKeeps<K>(slots: seq<K>, defaults: nat -> map<string, string>,
                                            store: map<K, Held>, n: nat)
    requires n <= |slots| && forall k | 0 <= k < |slots| :: slots[k] in store
    ensures var s := Prepared(slots, defaults, store, n);
            forall key | key in store :: KeepsGiven(s[key], store[key])
  {
    if n > 0 {
      PreparedKeeps(slots, defaults, store, n - 1);
    }
  }

  /** Every value with a default is set, to that default where builders share no mutation and nothing was given. */
  lemma {:induction false} PreparedSets<K>(slots: seq<K>, defaults: nat -> map<string, string>,
                                           store: map<K, Held>, n: nat)
    requires n <= |slots| && forall k | 0 <= k < |slots| :: slots[k] in store
    ensures var s := Prepared(slots, defaults, store, n);
            forall k | 0 <= k < n :: defaults(k).Keys <= s[slots[k]].input.values.Keys
  {
    if n > 0 {
      PreparedSets(slots, defaults, store, n - 1);
    }
  }

  lemma {:induction false} PreparedIs<K>(slots: seq<K>, defaults: nat -> map<string, string>,
                                         store: map<K, Held>, n: nat, k: nat)
    requires k < n <= |slots| && forall k | 0 <= k < |slots| :: slots[k] in store
    requires forall i, j | 0 <= i < j < |slots| :: slots[i] != slots[j]
    ensures var given, values := store[slots[k]].input.values,
                                 Prepared(slots, defaults, store, n)[slots[k]].input.values;
            && values.Keys == given.Keys + defaults(k).Keys
            && forall name | name in values ::
                 values[name] == if name in given then given[name] else defaults(k)[name]
  {
    if k == n - 1 {
      PreparedLater(slots, defaults, store, n - 1, k);
    } else {
      PreparedIs(slots, defaults, store, n - 1, k);
    }
  }

  lemma {:induction false} PreparedLater<K>(slots: seq<K>, defaults: nat -> map<string, string>,
                                            store: map<K, Held>, n: nat, k: nat)
    requires n <= k < |slots| && forall k | 0 <= k < |slots| :: slots[k] in store
    requires forall i, j | 0 <= i < j < |slots| :: slots[i] != slots[j]
    ensures Prepared(slots, defaults, store, n)[slots[k]] == store[slots[k]]
  {
    if n > 0 {
      PreparedLater(slots, defaults, store, n - 1, k);
    }
  }

  ghost predicate KeepsGiven(filled: Held, given: Held) {
    filled.done == given.done && filled.input.id == given.input.id && Extends(filled.input.values, given.input.values)
  }

  ghost predicate Extends(values: map<string, string>, given: map<string, string>) {
    forall name | name in given :: name in values && values[name] == given[name]
  }

  // ----- the trace -----

  /** The names of the hooks entered, outermost first. */
  ghost function Entered<K>(c: Context<K>, m: Mutator, store: map<K, Held>, specs: seq<Spec>): seq<string>
    requires Enterable(c, m, store, specs)
    decreases |c.slots| - BaseIndex(m), m
  {
    match m
    case Wrapped(hook, next) =>
      [hook.name] + (if hook.action.Stop? then []
                     else Entered(c, next, HandOn(c, hook, store, |specs|), specs))
    case Base(i) =>
      var input := store[c.slots[i]].input;
      if c.check(input).None? && i < |c.slots| - 1 then Entered(c, c.mutators[i + 1], store, specs + [SpecOf(input)])
      else []
  }

  ghost function Enters(names: seq<string>): seq<Event> {
    seq(|names|, k requires 0 <= k < |names| => Enter(names[k]))
  }

  /** In reverse order. */
  ghost function Exits(names: seq<string>): seq<Event> {
    seq(|names|, k requires 0 <= k < |names| => Exit(names[|names| - 1 - k]))
  }

  ghost predicate IsBracket<K>(e: Effect<K>, names: seq<string>) {
    && e.trace == Enters(names) + (if e.batches == [] then [] else [BatchCreate]) + Exits(names)
    && |e.batches| <= 1
  }

  /** The trace of any run is one nested bracket around at most one batch insert: each hook entered is left again, in
      reverse order. */
  lemma {:induction false} TraceIsBracket<K>(c: Context<K>, m: Mutator, store: map<K, Held>, specs: seq<Spec>)
    requires Enterable(c, m, store, specs)
    ensures IsBracket(Run(c, m, store, specs), Entered(c, m, store, specs))
    decreases |c.slots| - BaseIndex(m), m
  {
    match m
    case Wrapped(hook, next) =>
      if hook.action.Through? {
        TraceIsBracket(c, next, HandOn(c, hook, store, |specs|), specs);
      }
      TraceOfHook(c, hook, next, store, specs);
    case Base(i) =>
      if i < |c.slots| - 1 {
        TraceIsBracket(c, c.mutators[i + 1], store, specs + [SpecOf(store[c.slots[i]].input)]);
      }
      TraceOfBase(c, i, store, specs);
  }

  lemma TraceOfHook<K>(c: Context<K>, hook: Hook, next: Mutator, store: map<K, Held>, specs: seq<Spec>)
    requires Enterable(c, next, store, specs)
    requires hook.action.Through? ==>
               var edited := HandOn(c, hook, store, |specs|);
               IsBracket(Run(c, next, edited, specs), Entered(c, next, edited, specs))
    ensures IsBracket(Run(c, Wrapped(hook, next), store, specs), Entered(c, Wrapped(hook, next), store, specs))
  {
    if hook.action.Through? {
      var edited := HandOn(c, hook, store, |specs|);
      BracketAround(hook.name, Entered(c, next, edited, specs),
                    if Run(c, next, edited, specs).batches == [] then [] else [BatchCreate]);
    } else {
      BracketAround(hook.name, [], []);
    }
  }

  lemma TraceOfBase<K>(c: Context<K>, i: nat, store: map<K, Held>, specs: seq<Spec>)
    requires WellFormed(c, store) && i == |specs| < |c.slots|
    requires i < |c.slots| - 1 ==>
               var made := specs + [SpecOf(store[c.slots[i]].input)];
               IsBracket(Run(c, c.mutators[i + 1], store, made), Entered(c, c.mutators[i + 1], store, made))
    ensures IsBracket(Run(c, Base(i), store, specs), Entered(c, Base(i), store, specs))
  {
  }

  lemma BracketAround(name: string, names: seq<string>, middle: seq<Event>)
    ensures Bracket(name, Enters(names) + middle + Exits(names))
            == Enters([name] + names) + middle + Exits([name] + names)
  {
    assert Enters([name] + names) == [Enter(name)] + Enters(names);
    assert Exits([name] + names) == Exits(names) + [Exit(name)];
  }

  // ----- which error -----

  /** Hooks that hand on what they are told. */
  ghost predicate Transparent(m: Mutator) {
    m.Wrapped? ==>
      m.hook.action.Through? && (forall below :: m.hook.action.answer(below) == below) && Transparent(m.next)
  }

  /** The first check that fails from builder `k` on, if any. */
  ghost function FirstCheck<K>(c: Context<K>, store: map<K, Held>, k: nat): Option<string>
    requires WellFormed(c, store) && k <= |c.slots|
    decreases |c.slots| - k
  {
    if k == |c.slots| then None
    else if c.check(FinalInput(c, store, k)).Some? then c.check(FinalInput(c, store, k))
    else FirstCheck(c, store, k + 1)
  }

  lemma {:induction false} ThroughTransparent<K>(c: Context<K>, m: Mutator, store: map<K, Held>, specs: seq<Spec>)
    requires Enterable(c, m, store, specs) && Transparent(m)
    ensures var slot := c.slots[|specs|];
            Run(c, m, store, specs).error
            == Run(c, Base(|specs|), store[slot := Held(EditedBy(m, store[slot].input), store[slot].done)], specs).error
  {
    var slot := c.slots[|specs|];
    match m
    case Wrapped(hook, next) =>
      var edited := HandOn(c, hook, store, |specs|);
      ThroughTransparent(c, next, edited, specs);
      assert edited[slot := Held(EditedBy(m, store[slot].input), store[slot].done)]
          == store[slot := Held(EditedBy(m, store[slot].input), store[slot].done)];
    case Base(i) =>
      assert store[slot := Held(store[slot].input, store[slot].done)] == store;
  }

  /** The error of a run whose hooks hand on what they are told, from builder `k` on. */
  ghost function ErrorAt<K>(c: Context<K>, store: map<K, Held>, k: nat): Option<Error>
    requires WellFormed(c, store) && k < |c.slots|
  {
    Run(c, c.mutators[k], StoreAt(c, store, k), AllSpecs(c, store)[..k]).error
  }

  lemma ErrorOfBase<K>(c: Context<K>, i: nat, store: map<K, Held>, specs: seq<Spec>)
    requires WellFormed(c, store) && i == |specs| < |c.slots|
    ensures var input := store[c.slots[i]].input;
            Run(c, Base(i), store, specs).error
            == if c.check(input).Some? then Some(Check(c.check(input).value))
               else if i < |c.slots| - 1 then Run(c, c.mutators[i + 1], store, specs + [SpecOf(input)]).error
               else DbError(c.database(specs + [SpecOf(input)]))
  {
  }

  lemma ErrorThroughHooks<K>(c: Context<K>, store: map<K, Held>, k: nat)
    requires WellFormed(c, store) && k < |c.slots| && Transparent(c.mutators[k])
    ensures ErrorAt(c, store, k) == Run(c, Base(k), StoreAt(c, store, k + 1), AllSpecs(c, store)[..k]).error
  {
    ThroughTransparent(c, c.mutators[k], StoreAt(c, store, k), AllSpecs(c, store)[..k]);
    assert StoreAt(c, store, k + 1) == AfterHooks(c, StoreAt(c, store, k), k);
  }

  lemma NextSpec<K>(c: Context<K>, store: map<K, Held>, k: nat)
    requires WellFormed(c, store) && k < |c.slots|
    ensures var specs := AllSpecs(c, store);
            specs[..k] + [SpecOf(StoreAt(c, store, k + 1)[c.slots[k]].input)] == specs[..k + 1]
  {
  }

  lemma ErrorStep<K>(c: Context<K>, store: map<K, Held>, k: nat)
    requires WellFormed(c, store) && k < |c.slots| && Transparent(c.mutators[k])
    ensures var check := c.check(FinalInput(c, store, k));
            ErrorAt(c, store, k)
            == if check.Some? then Some(Check(check.value))
               else if k < |c.slots| - 1 then ErrorAt(c, store, k + 1) else DbError(c.database(AllSpecs(c, store)))
  {
    var specs := AllSpecs(c, store);
    ErrorThroughHooks(c, store, k);
    ErrorOfBase(c, k, StoreAt(c, store, k + 1), specs[..k]);
    NextSpec(c, store, k);
    assert specs[..|specs|] == specs;
  }

  lemma {:induction false} ErrorsFrom<K>(c: Context<K>, store: map<K, Held>, k: nat)
    requires WellFormed(c, store) && k < |c.slots|
    requires forall j | 0 <= j < |c.mutators| :: Transparent(c.mutators[j])
    ensures ErrorAt(c, store, k)
            == if FirstCheck(c, store, k).Some? then Some(Check(FirstCheck(c, store, k).value))
               else DbError(c.database(AllSpecs(c, store)))
    decreases |c.slots| - k
  {
    ErrorStep(c, store, k);
    if k < |c.slots| - 1 {
      ErrorsFrom(c, store, k + 1);
    } else {
      assert FirstCheck(c, store, k + 1) == None;
    }
  }

  /** Through hooks that hand on what they are told, the call reports the first check that fails; if none does, what
      the database reports about the batch, a violated constraint as that; and nothing if it took the batch. */
  lemma ReportedError<K>(c: Context<K>, store: map<K, Held>)
    requires WellFormed(c, store) && c.slots != []
    requires forall j | 0 <= j < |c.mutators| :: Transparent(c.mutators[j])
    ensures var error, fault := Run(c, c.mutators[0], store, []).error, c.database(AllSpecs(c, store));
            && (FirstCheck(c, store, 0).Some? ==> error == Some(Check(FirstCheck(c, store, 0).value)))
            && (FirstCheck(c, store, 0).None? ==>
                  match fault
                  case None => error == None
                  case Some(DbFault(message, isConstraint)) =>
                    error == Some(if isConstraint then Constraint(message) else Database(message)))
  {
    ErrorsFrom(c, store, 0);
    assert AllSpecs(c, store)[..0] == [];
  }

  // ----- hooks that break it -----

  /** A single builder with the one hook given. */
  ghost function OneBuilder(action: Action, check: Input -> Option<string>, database: seq<Spec> -> Option<DbFault>)
    : Context<nat>
  {
    Context([0], [Wrapped(HookNamed("hook", (x: Input) => x, action), Base(0))], check, database)
  }

  /** A hook that claims success without calling on makes the call succeed with nothing inserted. */
  lemma SkippingHookLosesTheInsert(input: Input, check: Input -> Option<string>, database: seq<Spec> -> Option<DbFault>)
    ensures var c, store := OneBuilder(Stop(None), check, database), map[0 := Held(input, false)];
            && WellFormed(c, store) && !IsAllOrNothing(c, c.mutators[0], store, [])
            && Run(c, c.mutators[0], store, []).error.None? && Run(c, c.mutators[0], store, []).batches == []
  {
    assert BaseIndex(OneBuilder(Stop(None), check, database).mutators[0]) == 0;
  }

  /** A hook that calls on and answers success to whatever it is told hides a failed check: the call succeeds with
      nothing inserted and nothing marked done. */
  lemma SwallowingHookHidesAFailure(input: Input, check: Input -> Option<string>,
                                    database: seq<Spec> -> Option<DbFault>)
    requires check(input).Some?
    ensures var c, store := OneBuilder(Through((below: Option<Error>) => None), check, database),
                            map[0 := Held(input, false)];
            && WellFormed(c, store) && !IsAllOrNothing(c, c.mutators[0], store, [])
            && var e := Run(c, c.mutators[0], store, []);
            e.error.None? && e.batches == [] && e.done == {}
  {
    var c, store := OneBuilder(Through((below: Option<Error>) => None), check, database), map[0 := Held(input, false)];
    assert BaseIndex(c.mutators[0]) == 0;
    OneHookRuns(c, store);
  }

  /** A hook that reports an error after a successful call makes the call fail with everything inserted and marked
      done. */
  lemma LateFailingHookKeepsTheInsert(input: Input, check: Input -> Option<string>,
                                      database: seq<Spec> -> Option<DbFault>)
    requires check(input).None? && database([SpecOf(input)]).None?
    ensures var c, store := OneBuilder(Through((below: Option<Error>) => Some(Error.Hook("late"))), check, database),
                            map[0 := Held(input, false)];
            && WellFormed(c, store) && !IsAllOrNothing(c, c.mutators[0], store, [])
            && var e := Run(c, c.mutators[0], store, []);
            e.error.Some? && e.batches == [[SpecOf(input)]] && 0 in e.done
  {
    var c, store := OneBuilder(Through((below: Option<Error>) => Some(Error.Hook("late"))), check, database),
                    map[0 := Held(input, false)];
    assert BaseIndex(c.mutators[0]) == 0;
    OneHookRuns(c, store);
  }

  /** What a single builder's own closure does. */
  lemma OneBuilderRuns<K>(c: Context<K>, store: map<K, Held>)
    requires WellFormed(c, store) && |c.slots| == 1
    ensures var e, input := Run(c, Base(0), store, []), store[c.slots[0]].input;
            if c.check(input).Some? then
              e.error == Some(Check(c.check(input).value)) && e.batches == [] && e.done == {}
            else
              && e.batches == [[SpecOf(input)]]
              && e.error == DbError(c.database([SpecOf(input)]))
              && e.done == if c.database([SpecOf(input)]).None? then {0} else {}
  {
    var input := store[c.slots[0]].input;
    assert [] + [SpecOf(input)] == [SpecOf(input)];
    if c.check(input).None? {
      var below := After(c, 0, store, [SpecOf(input)]);
      assert below.error == DbError(c.database([SpecOf(input)])) && below.done == {};
    }
  }

  lemma OneHookRuns<K>(c: Context<K>, store: map<K, Held>)
    requires WellFormed(c, store) && |c.slots| == 1
    requires c.mutators[0].Wrapped? && c.mutators[0].next == Base(0)
    requires c.mutators[0].hook.action.Through? && forall x :: c.mutators[0].hook.edit(x) == x
    ensures var e, answer, input := Run(c, c.mutators[0], store, []), c.mutators[0].hook.action.answer,
                                    store[c.slots[0]].input;
            if c.check(input).Some? then
              e.error == answer(Some(Check(c.check(input).value))) && e.batches == [] && e.done == {}
            else
              && e.batches == [[SpecOf(input)]]
              && e.error == answer(DbError(c.database([SpecOf(input)])))
              && e.done == if c.database([SpecOf(input)]).None? then {0} else {}
  {
    var edited := HandOn(c, c.mutators[0].hook, store, 0);
    assert edited[c.slots[0]].input == store[c.slots[0]].input;
    OneBuilderRuns(c, edited);
  }
}
