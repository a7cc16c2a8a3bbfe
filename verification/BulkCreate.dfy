/** The bulk builder itself (`AccountCreateBulk.Save` in `ent/account_create.go`): it prepares the builders, chains
    their mutators through a slice and marks mutations done on the way back. */
module BulkCreate {
  import opened JsText
  import opened MutatorChain

  class Mutation {
    var values: map<string, string>
    var id: Option<string>
    var done: bool

    constructor (values: map<string, string>, id: Option<string>)
      ensures View() == Held(Input(values, id), false)
    {
      this.values, this.id, this.done := values, id, false;
    }

    function View(): Held
      reads this
    {
      Held(Input(values, id), done)
    }
  }

  class Builder {
    const mutation: Mutation
    const hooks: seq<Hook>

    constructor (mutation: Mutation, hooks: seq<Hook>)
      ensures this.mutation == mutation && this.hooks == hooks
    {
      this.mutation, this.hooks := mutation, hooks;
    }
  }

  /** One call of Save: the slices its mutators share, and what it asked of hooks and database. */
  class BulkSave {
    const builders: seq<Builder>
    const check: Input -> Option<string>
    const database: seq<Spec> -> Option<DbFault>
    const specs: array<Spec>
    const nodes: array<Option<Node>>
    var mutators: seq<Mutator>
    var trace: seq<Event>
    var batches: seq<seq<Spec>>

    constructor (builders: seq<Builder>, check: Input -> Option<string>, database: seq<Spec> -> Option<DbFault>)
      ensures this.builders == builders && this.check == check && this.database == database
      ensures fresh(specs) && fresh(nodes) && specs.Length == nodes.Length == |builders|
      ensures mutators == [] && trace == [] && batches == [] && NodesAre([])
    {
      this.builders, this.check, this.database := builders, check, database;
      this.specs := new Spec[|builders|](_ => Spec(None, map[]));
      this.nodes := new Option<Node>[|builders|](_ => None);
      this.mutators, this.trace, this.batches := [], [], [];
    }

    ghost function Mutations(): set<Mutation> {
      set b | b in builders :: b.mutation
    }

    ghost function Slots(): (slots: seq<Mutation>)
      ensures |slots| == |builders|
      ensures forall k | 0 <= k < |slots| :: slots[k] == builders[k].mutation && slots[k] in Mutations()
    {
      seq(|builders|, k requires 0 <= k < |builders| => builders[k].mutation)
    }

    /** The mutations as they stand. */
    ghost function Store(): (store: map<Mutation, Held>)
      reads Mutations()
      ensures store.Keys == Mutations()
    {
      map o | o in Mutations() :: o.View()
    }

    /** The specs made so far; a builder without one has no node. */
    ghost predicate SpecsAre(made: seq<Spec>)
      reads specs
    {
      |made| <= specs.Length && specs[..|made|] == made
    }

    ghost predicate NodesAre(made: seq<Spec>)
      reads nodes
    {
      && |made| <= nodes.Length
      && (forall k | 0 <= k < |made| :: nodes[k] == Some(NodeOf(made[k])))
      && (forall k | |made| <= k < nodes.Length :: nodes[k] == None)
    }

    /** The context the chain runs in: the builders' mutations and the mutators their hooks make. */
    ghost function Chain(): (c: Context<Mutation>)
      ensures c.slots == Slots() && |c.mutators| == |builders| && c.check == check && c.database == database
      ensures forall k | 0 <= k < |builders| :: c.mutators[k] == Wrap(builders[k].hooks, Base(k))
    {
      Context(Slots(), seq(|builders|, k requires 0 <= k < |builders| => Wrap(builders[k].hooks, Base(k))),
              check, database)
    }

    lemma ChainIsWellFormed(store: map<Mutation, Held>)
      requires store.Keys == Mutations()
      ensures WellFormed(Chain(), store)
    {
    }

    /** The call is under way: the mutators are chained, and the builders of `made` have made their specs. */
    ghost predicate Underway(made: seq<Spec>)
      reads this, specs, nodes
    {
      && mutators == Chain().mutators && specs.Length == nodes.Length == |builders|
      && SpecsAre(made) && NodesAre(made)
    }

    /** Calls mutator `m`; `e` is the effect its specification gives it. */
    method Mutate(m: Mutator, ghost made: seq<Spec>) returns (error: Option<Error>, ghost e: Effect<Mutation>)
      requires Underway(made) && BaseIndex(m) == |made| < |builders|
      modifies this`trace, this`batches, specs, nodes, Mutations()
      ensures Enterable(Chain(), m, old(Store()), made) && e == Run(Chain(), m, old(Store()), made)
      ensures error == e.error && trace == old(trace) + e.trace && batches == old(batches) + e.batches
      ensures Store() == e.store && Underway(e.specs)
      decreases |builders| - BaseIndex(m), m, 4
    {
      ChainIsWellFormed(Store());
      match m
      case Wrapped(hook, next) =>
        error, e := MutateHook(hook, next, made);
      case Base(i) =>
        error, e := MutateBase(i, made);
    }

    method MutateHook(hook: Hook, next: Mutator, ghost made: seq<Spec>)
      returns (error: Option<Error>, ghost e: Effect<Mutation>)
      requires Underway(made) && BaseIndex(next) == |made| < |builders|
      modifies this`trace, this`batches, specs, nodes, Mutations()
      ensures Enterable(Chain(), next, old(Store()), made)
      ensures e == Run(Chain(), Wrapped(hook, next), old(Store()), made)
      ensures error == e.error && trace == old(trace) + e.trace && batches == old(batches) + e.batches
      ensures Store() == e.store && Underway(e.specs)
      decreases |builders| - BaseIndex(next), next, 5
    {
      ghost var before := trace;
      EnterHook(hook, BaseIndex(next), made);
      match hook.action {
        case Stop(report) =>
          error, e := report, Effect(report, [], [], {}, made, Store());
        case Through(answer) =>
          error, e := Mutate(next, made);
          error := answer(error);
      }
      Note(Exit(hook.name));
      BracketAdds(before, hook.name, e.trace);
      e := e.(error := error, trace := Bracket(hook.name, e.trace));
    }

    method EnterHook(hook: Hook, i: nat, ghost made: seq<Spec>)
      requires i < |builders| && Underway(made)
      modifies this`trace, builders[i].mutation
      ensures WellFormed(Chain(), old(Store())) && WellFormed(Chain(), Store()) && Underway(made)
      ensures Store() == HandOn(Chain(), hook, old(Store()), i) && trace == old(trace) + [Enter(hook.name)]
    {
      ChainIsWellFormed(Store());
      Note(Enter(hook.name));
      EditMutation(i, hook.edit);
      ChainIsWellFormed(Store());
    }

    method Note(event: Event)
      modifies this`trace
      ensures trace == old(trace) + [event]
      ensures Store() == old(Store())
    {
      trace := trace + [event];
    }

    /** A hook edits the mutation it is handed. */
    method EditMutation(i: nat, edit: Input -> Input)
      requires i < |builders|
      modifies builders[i].mutation
      ensures Store() == old(Store())[Slots()[i] := Edited(old(Store())[Slots()[i]], edit)]
    {
      var mutation := builders[i].mutation;
      assert mutation == Slots()[i];
      var edited := edit(Input(mutation.values, mutation.id));
      mutation.values, mutation.id := edited.values, edited.id;
    }

    lemma BracketAdds(before: seq<Event>, name: string, inner: seq<Event>)
      ensures before + [Enter(name)] + inner + [Exit(name)] == before + Bracket(name, inner)
    {
    }

    /** The closure of builder `i`, innermost of its mutators. */
    method MutateBase(i: nat, ghost made: seq<Spec>) returns (error: Option<Error>, ghost e: Effect<Mutation>)
      requires Underway(made) && i == |made| < |builders|
      modifies this`trace, this`batches, specs, nodes, Mutations()
      ensures WellFormed(Chain(), old(Store())) && e == Run(Chain(), Base(i), old(Store()), made)
      ensures error == e.error && trace == old(trace) + e.trace && batches == old(batches) + e.batches
      ensures Store() == e.store && Underway(e.specs)
      decreases |builders| - i, Base(i), 3
    {
      ChainIsWellFormed(Store());
      var mutation := builders[i].mutation;
      assert mutation == Slots()[i];
      var input := Input(mutation.values, mutation.id);
      var fault := check(input);
      if fault.Some? {
        error := Some(Check(fault.value));
        return error, Effect(error, [], [], {}, made, Store());
      }
      error, e := MutateChecked(i, input, made);
    }

    /** The closure once the check has passed. */
    method MutateChecked(i: nat, input: Input, ghost made: seq<Spec>)
      returns (error: Option<Error>, ghost e: Effect<Mutation>)
      requires Underway(made) && i == |made| < |builders|
      requires input == Store()[Slots()[i]].input && check(input).None?
      modifies this`trace, this`batches, specs, nodes, Mutations()
      ensures WellFormed(Chain(), old(Store())) && e == Run(Chain(), Base(i), old(Store()), made)
      ensures error == e.error && trace == old(trace) + e.trace && batches == old(batches) + e.batches
      ensures Store() == e.store && Underway(e.specs)
      decreases |builders| - i, Base(i), 2
    {
      ChainIsWellFormed(Store());
      MakeSpec(i, input, made);
      error, e := DescendAndMark(i, made + [SpecOf(input)]);
    }

    method DescendAndMark(i: nat, ghost made: seq<Spec>) returns (error: Option<Error>, ghost e: Effect<Mutation>)
      requires Underway(made) && i + 1 == |made|
      modifies this`trace, this`batches, specs, nodes, Mutations()
      ensures WellFormed(Chain(), old(Store()))
      ensures var below := After(Chain(), i, old(Store()), made);
              e == if below.error.Some? then below else MarkedOne(Chain(), below, i)
      ensures error == e.error && trace == old(trace) + e.trace && batches == old(batches) + e.batches
      ensures Store() == e.store && Underway(e.specs)
      decreases |builders| - i, Base(i), 1
    {
      error, e := Descend(i, made);
      if error.None? {
        MarkDone(i, e.specs);
        e := MarkedOne(Chain(), e, i);
      }
    }

    method MakeSpec(i: nat, input: Input, ghost made: seq<Spec>)
      requires Underway(made) && i == |made| < |builders|
      modifies specs, nodes
      ensures Underway(made + [SpecOf(input)])
      ensures Store() == old(Store())
    {
      specs[i] := SpecOf(input);
      nodes[i] := Some(NodeOf(specs[i]));
    }

    method MarkDone(i: nat, ghost made: seq<Spec>)
      requires Underway(made) && i < |made|
      modifies builders[i].mutation
      ensures Store() == old(Store())[Slots()[i] := Marked(old(Store())[Slots()[i]], made[i])]
      ensures Underway(made)
    {
      var mutation := builders[i].mutation;
      assert mutation == Slots()[i];
      mutation.id := Some(nodes[i].value.id);
      mutation.done := true;
    }

    /** Calls the next builder's mutator, or inserts the batch after the last one. */
    method Descend(i: nat, ghost made: seq<Spec>) returns (error: Option<Error>, ghost e: Effect<Mutation>)
      requires Underway(made) && i + 1 == |made|
      modifies this`trace, this`batches, specs, nodes, Mutations()
      ensures WellFormed(Chain(), old(Store())) && e == After(Chain(), i, old(Store()), made)
      ensures error == e.error && trace == old(trace) + e.trace && batches == old(batches) + e.batches
      ensures Store() == e.store && Underway(e.specs)
      decreases |builders| - i, Base(i), 0
    {
      ChainIsWellFormed(Store());
      if i < |mutators| - 1 {
        error, e := Mutate(mutators[i + 1], made);
      } else {
        assert specs[..] == made;
        trace, batches := trace + [Event.BatchCreate], batches + [specs[..]];
        error := DbError(database(specs[..]));
        e := Effect(error, [Event.BatchCreate], [made], {}, made, Store());
      }
    }

    /** Lines 262 to 300 of `account_create.go`: sets every builder's missing values and chains the mutators. */
    method Prepare(defaults: nat -> map<string, string>)
      requires mutators == []
      modifies this`mutators, Mutations()
      ensures mutators == Chain().mutators
      ensures Store() == Prepared(Slots(), defaults, old(Store()), |builders|) == old(Start(defaults))
    {
      ghost var start, slots, all := Store(), Slots(), Chain().mutators;
      for i := 0 to |builders|
        invariant mutators == all[..i]
        invariant Store() == Prepared(slots, defaults, start, i)
      {
        PrepareBuilder(i, defaults(i));
        assert Store() == Prepared(slots, defaults, start, i + 1);
        SliceGrows(all, i);
      }
    }

    lemma SliceGrows<T>(s: seq<T>, i: nat)
      requires i < |s|
      ensures s[..i + 1] == s[..i] + [s[i]]
    {
    }

    method PrepareBuilder(i: nat, defaults: map<string, string>)
      requires i < |builders|
      modifies this`mutators, builders[i].mutation
      ensures mutators == old(mutators) + [Chain().mutators[i]]
      ensures Store() == old(Store())[Slots()[i] := WithDefaults(old(Store())[Slots()[i]], defaults)]
    {
      SetDefaults(i, defaults);
      var mut := WrapHooks(builders[i].hooks, i);
      Append(mut);
    }

    method Append(mut: Mutator)
      modifies this`mutators
      ensures mutators == old(mutators) + [mut]
      ensures Store() == old(Store())
    {
      mutators := mutators + [mut];
    }

    /** Wraps the hooks around the closure of builder `i`, the first one outermost. */
    method WrapHooks(hooks: seq<Hook>, i: nat) returns (mut: Mutator)
      ensures mut == Wrap(hooks, Base(i))
    {
      mut := Base(i);
      for j := |hooks| downto 0
        invariant mut == Wrap(hooks[j..], Base(i))
      {
        mut := Wrapped(hooks[j], mut);
        assert hooks[j..] == [hooks[j]] + hooks[j + 1..];
      }
      assert hooks[0..] == hooks;
    }

    method SetDefaults(i: nat, defaults: map<string, string>)
      requires i < |builders|
      modifies builders[i].mutation
      ensures Store() == old(Store())[Slots()[i] := WithDefaults(old(Store())[Slots()[i]], defaults)]
    {
      var mutation := builders[i].mutation;
      assert mutation == Slots()[i];
      mutation.values := defaults + mutation.values;
    }

    /** The mutations with their missing values set. */
    ghost function Start(defaults: nat -> map<string, string>): (store: map<Mutation, Held>)
      reads Mutations()
      ensures WellFormed(Chain(), store)
      ensures store.Keys == Mutations() && forall o | o in store :: store[o].done == o.done
    {
      var store := Prepared(Slots(), defaults, Store(), |builders|);
      PreparedKeeps(Slots(), defaults, Store(), |builders|);
      ChainIsWellFormed(store);
      store
    }

    /** What the whole call comes to. */
    ghost function Outcome(start: map<Mutation, Held>): (e: Effect<Mutation>)
      requires start.Keys == Mutations()
    {
      ChainIsWellFormed(start);
      if |builders| == 0 then Effect(None, [], [], {}, [], start)
      else Run(Chain(), Chain().mutators[0], start, [])
    }

    /** Lines 259 to 305 of `account_create.go`. */
    method RunChain(defaults: nat -> map<string, string>, ghost start: map<Mutation, Held>)
      returns (error: Option<Error>, ghost e: Effect<Mutation>)
      requires mutators == [] && trace == [] && batches == [] && NodesAre([])
      requires specs.Length == nodes.Length == |builders| && start == Start(defaults)
      modifies this`mutators, this`trace, this`batches, specs, nodes, Mutations()
      ensures e == Outcome(start)
      ensures error == e.error && trace == e.trace && batches == e.batches && Store() == e.store && NodesAre(e.specs)
    {
      Prepare(defaults);
      if |mutators| == 0 {
        return None, Effect(None, [], [], {}, [], start);
      }
      ghost var noTrace, noBatches := trace, batches;
      error, e := Mutate(mutators[0], []);
      StartingFromNothing(noTrace, e.trace);
      StartingFromNothing(noBatches, e.batches);
    }

    lemma StartingFromNothing<T>(nothing: seq<T>, s: seq<T>)
      requires nothing == []
      ensures nothing + s == s
    {
    }

    /** Lines 259 to 306 of `account_create.go`. */
    method SaveChain(defaults: nat -> map<string, string>, ghost start: map<Mutation, Held>)
      returns (error: Option<Error>, entities: seq<Option<Node>>, ghost e: Effect<Mutation>)
      requires mutators == [] && trace == [] && batches == [] && NodesAre([])
      requires specs.Length == nodes.Length == |builders| && start == Start(defaults)
      modifies this`mutators, this`trace, this`batches, specs, nodes, Mutations()
      ensures e == Outcome(start)
      ensures error == e.error && trace == e.trace && batches == e.batches && Store() == e.store
      ensures if error.Some? then entities == [] else AreNodes(entities, e.specs)
    {
      error, e := RunChain(defaults, start);
      entities := [];
      if error.None? {
        entities := AllNodes(e.specs);
      }
    }

    method AllNodes(ghost made: seq<Spec>) returns (entities: seq<Option<Node>>)
      requires nodes.Length == |builders| && NodesAre(made)
      ensures AreNodes(entities, made)
    {
      entities := nodes[..];
    }

    /** Save itself; `own` is the error the builder was made with, if any. Whatever the hooks do, the call has the
        effect its specification gives it; with honest hooks it is all or nothing. */
    method Save(own: Option<Error>, defaults: nat -> map<string, string>)
      returns (error: Option<Error>, entities: seq<Option<Node>>, ghost e: Effect<Mutation>)
      requires mutators == [] && trace == [] && batches == [] && NodesAre([])
      requires specs.Length == nodes.Length == |builders|
      modifies this`mutators, this`trace, this`batches, specs, nodes, Mutations()
      ensures e == if own.Some? then Effect(own, [], [], {}, [], old(Store())) else Outcome(old(Start(defaults)))
      ensures error == e.error && trace == e.trace && batches == e.batches && Store() == e.store
      ensures if error.Some? then entities == [] else AreNodes(entities, e.specs)
      ensures own.None? && HooksAreHonest() && |builders| > 0 ==> SavedAll(e, old(Start(defaults)), entities)
    {
      if own.Some? {
        return own, [], Effect(own, [], [], {}, [], Store());
      }
      ghost var start := Start(defaults);
      error, entities, e := SaveChain(defaults, start);
      if HooksAreHonest() && |builders| > 0 {
        HonestOutcome(start, e, entities);
      }
    }

    ghost predicate HooksAreHonest() {
      forall k | 0 <= k < |builders| :: AreHonest(builders[k].hooks)
    }

    /** A node for every spec made, none for builders that did not get to it. */
    ghost predicate AreNodes(entities: seq<Option<Node>>, made: seq<Spec>) {
      && |made| <= |entities| == |builders|
      && forall k | 0 <= k < |builders| :: entities[k] == if k < |made| then Some(NodeOf(made[k])) else None
    }

    /** All or nothing: on success one insert of all specs, every mutation done and every node handed back; on failure
        no insert that the database took, and no mark that was not there at the start. */
    ghost predicate SavedAll(e: Effect<Mutation>, start: map<Mutation, Held>, entities: seq<Option<Node>>)
      requires e.store.Keys == start.Keys == Mutations() && WellFormed(Chain(), start)
    {
      var all := AllSpecs(Chain(), start);
      if e.error.None? then
        && e.batches == [all] && database(all).None?
        && (forall o | o in e.store :: e.store[o].done)
        && |entities| == |builders|
        && (forall k | 0 <= k < |builders| ::
              && entities[k].Some? && entities[k].value.values == FinalInput(Chain(), start, k).values
              && (FinalInput(Chain(), start, k).id.Some? ==>
                    entities[k].value.id == FinalInput(Chain(), start, k).id.value))
      else
        && (forall batch | batch in e.batches :: database(batch).Some?)
        && (forall o | o in e.store :: e.store[o].done == start[o].done)
    }

    lemma HonestOutcome(start: map<Mutation, Held>, e: Effect<Mutation>, entities: seq<Option<Node>>)
      requires HooksAreHonest() && |builders| > 0 && start.Keys == Mutations() && WellFormed(Chain(), start)
      requires e == Outcome(start)
      requires e.error.None? ==> AreNodes(entities, e.specs)
      ensures SavedAll(e, start, entities)
    {
      var c := Chain();
      forall k | 0 <= k < |c.mutators| ensures Honest(c.mutators[k]) {
        HonestWhenHooksAre(builders[k].hooks, k);
      }
      HonestRun(c, start);
      forall o | o in Mutations() ensures exists k :: 0 <= k < |builders| && c.slots[k] == o {
        var b :| b in builders && b.mutation == o;
        var k :| 0 <= k < |builders| && builders[k] == b;
        assert c.slots[k] == o;
      }
    }
  }
}
