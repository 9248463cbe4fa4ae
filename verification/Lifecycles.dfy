/** One model's lifecycle (src/lifecycle.rs): five states and a deferred-unload flag.
    The transitions are functions on `LifecycleView`; the class at the end updates the
    two fields in place and is proved to follow them. */
module Lifecycles {
  import opened Wrappers

  datatype ModelState = Unloaded | Loading | Loaded | Unloading | Failed(reason: string) {
    function Name(): string {
      match this
      case Unloaded => "unloaded"
      case Loading => "loading"
      case Loaded => "loaded"
      case Unloading => "unloading"
      case Failed(_) => "failed"
    }

    /** Only a loaded model takes requests. */
    predicate Serves() {
      Loaded?
    }
  }

  /** The thread a transition calls for. */
  datatype Command = NoCommand | BeginLoad | BeginUnload

  /** The end of a load or unload that the lifecycle is not in the middle of. */
  datatype UnexpectedEvent = UnexpectedEvent(event: string, state: string)

  datatype LifecycleView = LifecycleView(state: ModelState, unloadPending: bool) {
    /** The model is, or is on its way to being, loaded: nobody asked for it to go. */
    predicate Live() {
      state.Loaded? || (state.Loading? && !unloadPending)
    }
  }

  const NEW := LifecycleView(Unloaded, false)

  function RequestLoad(l: LifecycleView): (LifecycleView, Command) {
    match l.state
    case Unloaded => (l.(state := Loading), BeginLoad)
    case Failed(_) => (l.(state := Loading), BeginLoad)
    case Loading => (l.(unloadPending := false), NoCommand)
    case Loaded => (l, NoCommand)
    case Unloading => (l, NoCommand)
  }

  function RequestUnload(l: LifecycleView): (LifecycleView, Command) {
    match l.state
    case Loaded => (l.(state := Unloading), BeginUnload)
    case Loading => (l.(unloadPending := true), NoCommand)
    case Failed(_) => (l.(state := Unloaded), NoCommand)
    case Unloaded => (l, NoCommand)
    case Unloading => (l, NoCommand)
  }

  function LoadFinished(l: LifecycleView, outcome: Result<(), string>)
    : (LifecycleView, Result<Command, UnexpectedEvent>)
  {
    if !l.state.Loading? then
      (l, Err(UnexpectedEvent("load_finished", l.state.Name())))
    else
      match outcome
      case Ok(_) =>
        if l.unloadPending then
          (LifecycleView(Unloading, false), Ok(BeginUnload))
        else
          (LifecycleView(Loaded, false), Ok(NoCommand))
      case Err(reason) => (LifecycleView(Failed(reason), false), Ok(NoCommand))
  }

  function UnloadFinished(l: LifecycleView, outcome: Result<(), string>)
    : (LifecycleView, Result<Command, UnexpectedEvent>)
  {
    if !l.state.Unloading? then
      (l, Err(UnexpectedEvent("unload_finished", l.state.Name())))
    else
      match outcome
      case Ok(_) => (l.(state := Unloaded), Ok(NoCommand))
      case Err(reason) => (l.(state := Failed(reason)), Ok(NoCommand))
  }

  // ----- Conservation of work over any sequence of events

  datatype LifecycleEvent =
    | LoadAsked
    | UnloadAsked
    | LoadEnded(outcome: Result<(), string>)
    | UnloadEnded(outcome: Result<(), string>)

  function Apply(l: LifecycleView, e: LifecycleEvent): (LifecycleView, Result<Command, UnexpectedEvent>) {
    match e
    case LoadAsked => var (l', c) := RequestLoad(l); (l', Ok(c))
    case UnloadAsked => var (l', c) := RequestUnload(l); (l', Ok(c))
    case LoadEnded(outcome) => LoadFinished(l, outcome)
    case UnloadEnded(outcome) => UnloadFinished(l, outcome)
  }

  function After(es: seq<LifecycleEvent>): LifecycleView {
    if es == [] then NEW else Apply(After(es[..|es| - 1]), es[|es| - 1]).0
  }

  /** How often, along `es` from a new lifecycle, the command `c` was given. */
  function Begun(es: seq<LifecycleEvent>, c: Command): nat {
    if es == [] then 0 else
      var init := es[..|es| - 1];
      Begun(init, c) + if Apply(After(init), es[|es| - 1]).1 == Ok(c) then 1 else 0
  }

  /** How often, along `es`, a finish event was accepted (loads if `load`, else unloads). */
  function Ended(es: seq<LifecycleEvent>, load: bool): nat {
    if es == [] then 0 else
      var init := es[..|es| - 1];
      var e := es[|es| - 1];
      Ended(init, load)
      + if (if load then e.LoadEnded? else e.UnloadEnded?) && Apply(After(init), e).1.Ok? then 1 else 0
  }

  /** Whatever sequence of requests and finish events arrives, expected or not: every load
      begun has ended exactly once unless the model is loading now, every unload begun has
      ended exactly once unless it is unloading now, and an unload is deferred only while
      loading. */
  lemma {:induction false} WorkIsConserved(es: seq<LifecycleEvent>)
    ensures Begun(es, BeginLoad) == Ended(es, true) + if After(es).state.Loading? then 1 else 0
    ensures Begun(es, BeginUnload) == Ended(es, false) + if After(es).state.Unloading? then 1 else 0
    ensures After(es).unloadPending ==> After(es).state.Loading?
  {
    if es != [] {
      WorkIsConserved(es[..|es| - 1]);
    }
  }

  // ----- As an object updated in place

  class Lifecycle {
    var state: ModelState
    var unloadPending: bool

    function View(): LifecycleView
      reads this
    {
      LifecycleView(state, unloadPending)
    }

    constructor ()
      ensures View() == NEW
    {
      state, unloadPending := Unloaded, false;
    }

    method AskLoad() returns (command: Command)
      modifies this
      ensures (View(), command) == RequestLoad(old(View()))
    {
      match state
      case Unloaded | Failed(_) =>
        state := Loading;
        command := BeginLoad;
      case Loading =>
        unloadPending := false;
        command := NoCommand;
      case Loaded | Unloading =>
        command := NoCommand;
    }

    method AskUnload() returns (command: Command)
      modifies this
      ensures (View(), command) == RequestUnload(old(View()))
    {
      match state
      case Loaded =>
        state := Unloading;
        command := BeginUnload;
      case Loading =>
        unloadPending := true;
        command := NoCommand;
      case Failed(_) =>
        state := Unloaded;
        command := NoCommand;
      case Unloaded | Unloading =>
        command := NoCommand;
    }

    method EndLoad(outcome: Result<(), string>) returns (r: Result<Command, UnexpectedEvent>)
      modifies this
      ensures (View(), r) == LoadFinished(old(View()), outcome)
    {
      if state != Loading {
        return Err(UnexpectedEvent("load_finished", state.Name()));
      }
      var pending := unloadPending;
      unloadPending := false;
      match outcome
      case Ok(_) =>
        if pending {
          state := Unloading;
          r := Ok(BeginUnload);
        } else {
          state := Loaded;
          r := Ok(NoCommand);
        }
      case Err(reason) =>
        state := Failed(reason);
        r := Ok(NoCommand);
    }

    method EndUnload(outcome: Result<(), string>) returns (r: Result<Command, UnexpectedEvent>)
      modifies this
      ensures (View(), r) == UnloadFinished(old(View()), outcome)
    {
      if state != Unloading {
        return Err(UnexpectedEvent("unload_finished", state.Name()));
      }
      state := match outcome case Ok(_) => Unloaded case Err(reason) => Failed(reason);
      r := Ok(NoCommand);
    }
  }
}
