/** Capability-gated dispatch of named actions on a lazily built drop (lib/performer.js). */
module Performer {
  import opened Wrappers

  /** The command-line arguments a performer is created with. */
  type Argv = seq<string>

  /** The part of the shared ydm object that a factory receives besides the registry. */
  datatype Context = Context(settings: map<string, string>)

  /** What a factory yields: a drop type, whose instances define the named actions. */
  datatype DropClass = DropClass(actions: set<string>)

  /** A registered drop factory: `factory(argv, ydm)` returns the drop type. */
  type Factory = (Argv, Context) -> DropClass

  /** The shared ydm object: the registry of factories by drop name, and the rest. */
  datatype Ydm = Ydm(drops: map<string, Factory>, context: Context)

  /** The structured answer of `canPerform`: `ok`, and a `reason` when it is not. */
  datatype Verdict = Verdict(ok: bool, reason: Option<string>)

  /** A callback handed to an action; only its identity matters here. */
  datatype Callback = Callback(id: nat)

  /** One dispatched call: the named action of the drop, invoked with `cb` alone. */
  datatype Invocation = Invocation(action: string, cb: Callback)

  /** What `perform` does with the action: call it, or fault because it is not a function. */
  datatype Dispatch = Dispatched | NotAFunction(action: string)

  const MissingActionPrefix := "Drop does not define "

  function MissingActionReason(action: string): string {
    MissingActionPrefix + action
  }

  function NoFactoryReason(dropName: string): string {
    "Drop '" + dropName + "'" + NoFactoryTail
  }

  const NoFactoryTail := " has no factory. Ydm does not define a remote repository [yet]."


  /** The factory registered for `dropName`, if any. */
  function Lookup(ydm: Ydm, dropName: string): (f: Option<Factory>)
    ensures f.Some? <==> dropName in ydm.drops
    ensures f.Some? ==> f.value == ydm.drops[dropName]
  {
    if dropName in ydm.drops then Some(ydm.drops[dropName]) else None
  }

  /**
   * The decision of `canPerform` for a drop whose instance defines `actions`
   * (None when the drop has no factory).
   */
  function Decide(dropName: string, actions: Option<set<string>>, action: string): (r: Verdict)
    ensures r.ok <==> actions.Some? && action in actions.value
    ensures r.ok ==> r.reason == None
    ensures actions.None? ==> r.reason == Some(NoFactoryReason(dropName))
    ensures actions.Some? && action !in actions.value ==> r.reason == Some(MissingActionReason(action))
  {
    match actions
    case Some(defined) =>
      if action in defined then Verdict(true, None)
      else Verdict(false, Some(MissingActionReason(action)))
    case None =>
      Verdict(false, Some(NoFactoryReason(dropName)))
  }

  /** The action named in a missing-action reason can be read back from it. */
  lemma MissingActionReasonNamesAction(action: string)
    ensures |MissingActionReason(action)| == |MissingActionPrefix| + |action|
    ensures MissingActionReason(action)[|MissingActionPrefix|..] == action
  {
    assert MissingActionReason(action)[|MissingActionPrefix|..] == action;
  }

  /** Two different missing actions give two different reasons. */
  lemma MissingActionReasonInjective(a: string, b: string)
    requires MissingActionReason(a) == MissingActionReason(b)
    ensures a == b
  {
    MissingActionReasonNamesAction(a);
    MissingActionReasonNamesAction(b);
  }

  /** The drop name stands in the no-factory reason, between quotes, right after "Drop ". */
  lemma NoFactoryReasonNamesDrop(dropName: string)
    ensures |NoFactoryReason(dropName)| > 6 + |dropName|
    ensures NoFactoryReason(dropName)[6..6 + |dropName|] == dropName
    ensures NoFactoryReason(dropName)[5] == '\'' && NoFactoryReason(dropName)[6 + |dropName|] == '\''
  {
    var r := NoFactoryReason(dropName);
    assert r == "Drop '" + dropName + ("'" + NoFactoryTail);
    assert r[6..6 + |dropName|] == dropName;
  }

  /** A caller can tell from the reason alone which of the two refusals it got. */
  lemma ReasonsAreDistinct(dropName: string, action: string)
    ensures NoFactoryReason(dropName) != MissingActionReason(action)
  {
    NoFactoryReasonNamesDrop(dropName);
    assert MissingActionReason(action)[5] == 'd';
  }

  /**
   * The closure built by `module.exports(dropName, argv, ydm)`: the factory
   * looked up once, and the two slots `Drop` and `drop` that `build()` fills
   * at most once.
   */
  class Performer {
    const dropName: string
    const argv: Argv
    const ydm: Ydm
    const factory: Option<Factory>

    /** The drop type returned by the factory, once built. */
    var dropClass: Option<DropClass>
    /** The drop instance (the action names it defines), once built. */
    var drop: Option<set<string>>

    /** How many times the factory has been invoked on this performer. */
    ghost var factoryCalls: nat
    /** Every action dispatched so far, in order. */
    ghost var invocations: seq<Invocation>

    ghost predicate Valid()
      reads this
    {
      && factory == Lookup(ydm, dropName)
      && (dropClass.Some? <==> drop.Some?)
      && (drop.Some? ==>
            && factory.Some?
            && dropClass == Some(factory.value(argv, ydm.context))
            && drop == Some(dropClass.value.actions))
      && factoryCalls == (if drop.Some? then 1 else 0)
    }

    ghost predicate Built()
      reads this
    {
      drop.Some?
    }

    /** The action names of the one instance `factory(argv, ydm)` produces, if there is a factory. */
    ghost function Actions(): Option<set<string>>
      reads this
    {
      match factory
      case Some(f) => Some(f(argv, ydm.context).actions)
      case None => None
    }

    constructor (dropName: string, argv: Argv, ydm: Ydm)
      ensures Valid() && !Built()
      ensures this.dropName == dropName && this.argv == argv && this.ydm == ydm
      ensures factory == Lookup(ydm, dropName)
      ensures factoryCalls == 0 && invocations == []
    {
      this.dropName := dropName;
      this.argv := argv;
      this.ydm := ydm;
      this.factory := Lookup(ydm, dropName);
      dropClass := None;
      drop := None;
      factoryCalls := 0;
      invocations := [];
    }

    /** `build()`: invoke the factory and instantiate its drop type, unless already built. */
    method Build()
      requires Valid() && factory.Some?
      modifies this
      ensures Valid() && Built() && factoryCalls == 1
      ensures drop == Actions()
      ensures old(Built()) ==> dropClass == old(dropClass) && drop == old(drop)
      ensures invocations == old(invocations)
    {
      if drop.Some? {
        return;
      }
      var created := factory.value(argv, ydm.context);
      dropClass := Some(created);
      drop := Some(created.actions);
      factoryCalls := factoryCalls + 1;
    }

    /** `canPerform(action)`: whether the drop defines `action`, and why not when it does not. */
    method CanPerform(action: string) returns (res: Verdict)
      requires Valid()
      modifies this
      ensures Valid() && factoryCalls <= 1
      ensures res == Decide(dropName, Actions(), action)
      ensures factory.Some? ==> Built() && drop == Actions()
      ensures factory.None? ==> !Built() && factoryCalls == 0
      ensures old(Built()) ==> drop == old(drop) && factoryCalls == old(factoryCalls)
      ensures invocations == old(invocations)
    {
      if factory.Some? {
        Build();
        if action in drop.value {
          res := Verdict(true, None);
        } else {
          res := Verdict(false, Some(MissingActionReason(action)));
        }
      } else {
        res := Verdict(false, Some(NoFactoryReason(dropName)));
      }
    }

    /**
     * `perform(action, cb)`: build the drop if needed, then call the named
     * action with `cb` as its only argument; an action the drop does not
     * define is not a function and the call faults.
     */
    method Perform(action: string, cb: Callback) returns (d: Dispatch)
      requires Valid() && factory.Some?
      modifies this
      ensures Valid() && Built() && factoryCalls == 1
      ensures drop == Actions()
      ensures old(Built()) ==> drop == old(drop)
      ensures d == (if action in Actions().value then Dispatched else NotAFunction(action))
      ensures invocations == old(invocations) + (if d.Dispatched? then [Invocation(action, cb)] else [])
    {
      Build();
      if action in drop.value {
        invocations := invocations + [Invocation(action, cb)];
        d := Dispatched;
      } else {
        d := NotAFunction(action);
      }
    }
  }
}
