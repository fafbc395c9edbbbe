/**
 * The module lifecycle and data-node cache of a PV-Star module (PVStarModule.java).
 *
 * The three lifecycle calls each check flags, throw a RuntimeException when
 * refused, and otherwise raise one flag and call one hook of the subclass.
 * A refused call changes nothing here; the exception becomes a `Fail`.
 */
module Modules {
  import opened Wrappers
  import opened Text

  /** The flags `_isPreEnabled`, `_isEnabled` and `_isDisposed`. */
  datatype Flags = Flags(preEnabled: bool, enabled: bool, disposed: bool)

  const Initial: Flags := Flags(false, false, false)

  /** The lifecycle calls: `preEnable`, `enable`, `dispose`. */
  datatype Call = PreEnableCall | EnableCall | DisposeCall

  /** The subclass hooks they call: `onRegisterTypes`, `onEnable`, `onDispose`. */
  datatype Hook = OnRegisterTypes | OnEnable | OnDispose

  /** Why a call is refused. */
  datatype LifecycleError = AlreadyPreEnabled | AlreadyEnabled | AlreadyDisposed

  function HookOf(call: Call): Hook {
    match call
    case PreEnableCall => OnRegisterTypes
    case EnableCall => OnEnable
    case DisposeCall => OnDispose
  }

  /** The flag a call raises. */
  function FlagOf(f: Flags, call: Call): bool {
    match call
    case PreEnableCall => f.preEnabled
    case EnableCall => f.enabled
    case DisposeCall => f.disposed
  }

  /** One lifecycle call: refused, or the flags with the call's own flag raised. */
  function Step(f: Flags, call: Call): (r: Result<Flags, LifecycleError>)
    ensures r.Failure? <==> FlagOf(f, call) || f.disposed
    ensures r.Success? ==> FlagOf(r.value, call) && !FlagOf(f, call)
    ensures r.Success? ==> forall other :: other != call ==> FlagOf(r.value, other) == FlagOf(f, other)
  {
    match call
    case PreEnableCall =>
      if f.preEnabled then Failure(AlreadyPreEnabled)
      else if f.disposed then Failure(AlreadyDisposed)
      else Success(f.(preEnabled := true))
    case EnableCall =>
      if f.enabled then Failure(AlreadyEnabled)
      else if f.disposed then Failure(AlreadyDisposed)
      else Success(f.(enabled := true))
    case DisposeCall =>
      if f.disposed then Failure(AlreadyDisposed)
      else Success(f.(disposed := true))
  }

  /** `enable` does not need a prior `preEnable`, and `dispose` is allowed from any state that is not disposed. */
  lemma NoOrderingBetweenCalls(f: Flags)
    ensures !f.enabled && !f.disposed ==> Step(f, EnableCall).Success?
    ensures !f.disposed ==> Step(f, DisposeCall).Success?
    ensures Step(Initial, EnableCall) == Success(Flags(false, true, false))
  {
  }

  /** The flags and hook calls after a series of lifecycle calls, refused ones included. */
  datatype History = History(flags: Flags, hooks: seq<Hook>)

  function Run(f: Flags, calls: seq<Call>): History
    decreases |calls|
  {
    if |calls| == 0 then History(f, [])
    else
      var step := Step(f, calls[0]);
      var next := if step.Success? then step.value else f;
      var rest := Run(next, calls[1..]);
      History(rest.flags, (if step.Success? then [HookOf(calls[0])] else []) + rest.hooks)
  }

  /** Every flag can only go from false to true. */
  predicate NoFlagLowered(before: Flags, after: Flags) {
    (before.preEnabled ==> after.preEnabled)
    && (before.enabled ==> after.enabled)
    && (before.disposed ==> after.disposed)
  }

  lemma {:induction false} FlagsOnlyRise(f: Flags, calls: seq<Call>)
    ensures NoFlagLowered(f, Run(f, calls).flags)
    decreases |calls|
  {
    if |calls| > 0 {
      var step := Step(f, calls[0]);
      var next := if step.Success? then step.value else f;
      FlagsOnlyRise(next, calls[1..]);
    }
  }

  function CountHook(hooks: seq<Hook>, h: Hook): nat {
    if |hooks| == 0 then 0 else (if hooks[0] == h then 1 else 0) + CountHook(hooks[1..], h)
  }

  lemma {:induction false} CountHookAppend(a: seq<Hook>, b: seq<Hook>, h: Hook)
    ensures CountHook(a + b, h) == CountHook(a, h) + CountHook(b, h)
  {
    if |a| > 0 {
      assert (a + b)[0] == a[0];
      assert (a + b)[1..] == a[1..] + b;
      CountHookAppend(a[1..], b, h);
    } else {
      assert a + b == b;
    }
  }

  /**
   * Each hook is called at most once over a module's life: exactly once if
   * its flag went from false to true, and not at all otherwise.
   */
  lemma {:induction false} EachHookAtMostOnce(f: Flags, calls: seq<Call>, call: Call)
    ensures CountHook(Run(f, calls).hooks, HookOf(call)) ==
            if !FlagOf(f, call) && FlagOf(Run(f, calls).flags, call) then 1 else 0
    decreases |calls|
  {
    if |calls| > 0 {
      var step := Step(f, calls[0]);
      var next := if step.Success? then step.value else f;
      EachHookAtMostOnce(next, calls[1..], call);
      FlagsOnlyRise(next, calls[1..]);
      var head: seq<Hook> := if step.Success? then [HookOf(calls[0])] else [];
      CountHookAppend(head, Run(next, calls[1..]).hooks, HookOf(call));
      if step.Success? {
        assert head[1..] == [];
      }
    }
  }

  /** A disposed module refuses every later call: its flags stay as they are and no hook runs. */
  lemma {:induction false} DisposedIsFinal(f: Flags, calls: seq<Call>)
    requires f.disposed
    ensures Run(f, calls) == History(f, [])
    decreases |calls|
  {
    if |calls| > 0 {
      DisposedIsFinal(f, calls[1..]);
    }
  }

  // ---------------------------------------------------------------------
  // Data nodes

  /** A storage node; what it stores is not modelled, only where it lives and whether it was loaded. */
  class DataNode {
    const path: seq<string>
    var loaded: bool

    constructor (path: seq<string>)
      ensures this.path == path && !loaded
    {
      this.path := path;
      loaded := false;
    }

    method Load()
      modifies this
      ensures loaded
    {
      loaded := true;
    }
  }

  /** `PVStarModule`: the lifecycle flags, the hooks called so far, and the data-node cache. */
  class PVStarModule {
    /** The module's name, from its module info (looked up outside this model). */
    const name: string
    var isPreEnabled: bool
    var isEnabled: bool
    var isDisposed: bool
    /** The subclass hooks called so far, in order. */
    ghost var hooks: seq<Hook>
    /** `_customNodes`, keyed by lower-cased path. */
    var customNodes: map<string, DataNode>
    /** `_dataNode`, the module's own configuration node once created. */
    var dataNode: DataNode?

    function State(): Flags
      reads this
    {
      Flags(isPreEnabled, isEnabled, isDisposed)
    }

    constructor (name: string)
      ensures this.name == name && State() == Initial && hooks == []
      ensures customNodes == map[] && dataNode == null
    {
      this.name := name;
      isPreEnabled, isEnabled, isDisposed := false, false, false;
      hooks := [];
      customNodes := map[];
      dataNode := null;
    }

    /** `preEnable`: refused once pre-enabled or disposed; otherwise sets the flag, then calls `onRegisterTypes`. */
    method PreEnable() returns (r: Outcome<LifecycleError>)
      modifies this
      ensures r.Fail? <==> Step(old(State()), PreEnableCall).Failure?
      ensures r.Fail? ==> r.error == Step(old(State()), PreEnableCall).error
      ensures State() == Run(old(State()), [PreEnableCall]).flags
      ensures hooks == old(hooks) + Run(old(State()), [PreEnableCall]).hooks
      ensures customNodes == old(customNodes) && dataNode == old(dataNode)
    {
      if isPreEnabled {
        return Fail(AlreadyPreEnabled);
      }
      if isDisposed {
        return Fail(AlreadyDisposed);
      }
      isPreEnabled := true;
      hooks := hooks + [OnRegisterTypes];
      r := Pass;
    }

    /** `enable`: refused once enabled or disposed; otherwise sets the flag, then calls `onEnable`. */
    method Enable() returns (r: Outcome<LifecycleError>)
      modifies this
      ensures r.Fail? <==> Step(old(State()), EnableCall).Failure?
      ensures r.Fail? ==> r.error == Step(old(State()), EnableCall).error
      ensures State() == Run(old(State()), [EnableCall]).flags
      ensures hooks == old(hooks) + Run(old(State()), [EnableCall]).hooks
      ensures customNodes == old(customNodes) && dataNode == old(dataNode)
    {
      if isEnabled {
        return Fail(AlreadyEnabled);
      }
      if isDisposed {
        return Fail(AlreadyDisposed);
      }
      isEnabled := true;
      hooks := hooks + [OnEnable];
      r := Pass;
    }

    /** `dispose`: refused once disposed; otherwise sets the flag, then calls `onDispose`. */
    method Dispose() returns (r: Outcome<LifecycleError>)
      modifies this
      ensures r.Fail? <==> Step(old(State()), DisposeCall).Failure?
      ensures r.Fail? ==> r.error == Step(old(State()), DisposeCall).error
      ensures State() == Run(old(State()), [DisposeCall]).flags
      ensures hooks == old(hooks) + Run(old(State()), [DisposeCall]).hooks
      ensures customNodes == old(customNodes) && dataNode == old(dataNode)
    {
      if isDisposed {
        return Fail(AlreadyDisposed);
      }
      isDisposed := true;
      hooks := hooks + [OnDispose];
      r := Pass;
    }

    /** `getDataNode()`: the module's configuration node, created and loaded on first use. */
    method GetConfigNode() returns (node: DataNode)
      modifies this
      ensures old(dataNode) != null ==> node == old(dataNode)
      ensures old(dataNode) == null ==> fresh(node) && node.loaded && node.path == ["modules", name, "config"]
      ensures dataNode == node
      ensures State() == old(State()) && hooks == old(hooks) && customNodes == old(customNodes)
    {
      if dataNode == null {
        var created := new DataNode(["modules", name, "config"]);
        created.Load();
        dataNode := created;
      }
      node := dataNode;
    }

    /**
     * `getDataNode(path)`: the path must not be empty. The cache key is the
     * lower-cased path; on a miss a node under the module's storage path is
     * created from the path as given, loaded and cached.
     */
    method GetDataNode(path: string) returns (node: DataNode)
      requires |path| > 0
      modifies this
      ensures ToLower(path) in old(customNodes) ==>
                node == old(customNodes)[ToLower(path)] && customNodes == old(customNodes)
      ensures ToLower(path) !in old(customNodes) ==>
                fresh(node) && node.loaded && node.path == ["modules", name, path]
                && customNodes == old(customNodes)[ToLower(path) := node]
      ensures State() == old(State()) && hooks == old(hooks) && dataNode == old(dataNode)
    {
      var key := ToLower(path);
      if key in customNodes {
        return customNodes[key];
      }
      node := new DataNode(["modules", name, path]);
      node.Load();
      customNodes := customNodes[key := node];
    }
  }

  /** Paths that differ only in case get the same node, and only the first call creates it. */
  method CaseVariantsShareNode(m: PVStarModule, p: string, q: string) returns (first: DataNode, second: DataNode)
    requires |p| > 0 && EqualIgnoringCase(p, q)
    modifies m
    ensures first == second
    ensures ToLower(p) !in old(m.customNodes) ==> fresh(first) && first.path == ["modules", m.name, p]
  {
    ToLowerSameIffEqualIgnoringCase(p, q);
    first := m.GetDataNode(p);
    second := m.GetDataNode(q);
  }
}
