/** The project component of the org.avaje.idea.ebean generation
    (src/org/avaje/idea/ebean/plugin/EbeanActionComponent.java): a
    persisted "enabled" flag, and the registration of the component's
    compiled-file collector with the project's compiler manager, which is
    kept in step with the flag. */
module ActionComponent {
  import AvajeCollector

  /** The project's compiler manager, reduced to its compilation-status
      listeners: adding one counts it once more, removing one takes one
      occurrence away (none when it is not registered). */
  class CompilerManager {
    var listeners: multiset<AvajeCollector.Collector>

    constructor (listeners: multiset<AvajeCollector.Collector>)
      ensures this.listeners == listeners
    {
      this.listeners := listeners;
    }

    method AddCompilationStatusListener(c: AvajeCollector.Collector)
      modifies this
      ensures listeners == old(listeners) + multiset{c}
    {
      listeners := listeners + multiset{c};
    }

    method RemoveCompilationStatusListener(c: AvajeCollector.Collector)
      modifies this
      ensures listeners == old(listeners) - multiset{c}
    {
      listeners := listeners - multiset{c};
    }
  }

  /** `EbeanEnhancementState`: the persisted bean. */
  class EnhancementState {
    var enabled: bool

    constructor ()
      ensures !enabled
    {
      enabled := false;
    }
  }

  /** How the number of registrations of the collector changes when the
      flag goes from `wasEnabled` to `enabled`: one more on a false-to-true
      transition, one less on a true-to-false transition, otherwise none. */
  function ListenerChange(wasEnabled: bool, enabled: bool): (d: int)
    ensures d == (if enabled then 1 else 0) - (if wasEnabled then 1 else 0)
    ensures d == 1 <==> !wasEnabled && enabled
    ensures d == -1 <==> wasEnabled && !enabled
  {
    if !wasEnabled && enabled then 1 else if wasEnabled && !enabled then -1 else 0
  }

  /** The component: the compiler manager, its own collector and its own
      state bean. */
  class Component {
    const compilerManager: CompilerManager
    const collector: AvajeCollector.Collector
    const state: EnhancementState

    /** The collector is registered exactly once when enabled and not at
        all when disabled. */
    ghost predicate Valid()
      reads this, compilerManager, state
    {
      compilerManager.listeners[collector] == if state.enabled then 1 else 0
    }

    /** The constructor: a new collector and a new, disabled state; nothing
        is registered. */
    constructor (compilerManager: CompilerManager)
      ensures Valid() && !state.enabled
      ensures this.compilerManager == compilerManager && fresh(collector) && fresh(state)
    {
      this.compilerManager := compilerManager;
      collector := new AvajeCollector.Collector();
      state := new EnhancementState();
    }

    /** `isEnabled`. */
    method IsEnabled() returns (b: bool)
      ensures b == state.enabled
    {
      b := state.enabled;
    }

    /** `setEnabled`: afterwards the flag is `enabled`; the collector is
        added only on a false-to-true transition and removed only on a
        true-to-false transition, so setting the current value changes no
        registration, and a valid component stays valid. */
    method SetEnabled(enabled: bool)
      modifies compilerManager, state
      ensures state.enabled == enabled
      ensures !old(state.enabled) && enabled ==> compilerManager.listeners == old(compilerManager.listeners) + multiset{collector}
      ensures old(state.enabled) && !enabled ==> compilerManager.listeners == old(compilerManager.listeners) - multiset{collector}
      ensures old(state.enabled) == enabled ==> compilerManager.listeners == old(compilerManager.listeners)
      ensures old(Valid()) ==> Valid()
      ensures old(Valid()) ==>
                compilerManager.listeners[collector] == old(compilerManager.listeners[collector]) + ListenerChange(old(state.enabled), enabled)
    {
      if !state.enabled && enabled {
        compilerManager.AddCompilationStatusListener(collector);
      } else if state.enabled && !enabled {
        compilerManager.RemoveCompilationStatusListener(collector);
      }
      state.enabled := enabled;
    }

    /** `projectClosed`: the component ends disabled with its collector no
        longer registered; every other registration stays as it was. */
    method ProjectClosed()
      requires Valid()
      modifies compilerManager, state
      ensures Valid() && !state.enabled
      ensures compilerManager.listeners[collector] == 0
      ensures compilerManager.listeners == old(compilerManager.listeners) - multiset{collector}
    {
      if !state.enabled {
        assert old(compilerManager.listeners) - multiset{collector} == old(compilerManager.listeners);
      }
      SetEnabled(false);
    }

    /** `getState`: the component's own bean, not a copy. */
    method GetState() returns (s: EnhancementState)
      ensures s == state
    {
      s := state;
    }

    /** `loadState`: `setEnabled` with the loaded flag, then the loaded
        bean's flag copied into the component's own bean; this works as
        well when the loaded bean is the component's own one. The
        registrations change as `setEnabled` changes them. */
    method LoadState(loaded: EnhancementState)
      requires Valid()
      modifies compilerManager, state
      ensures state.enabled == old(loaded.enabled)
      ensures !old(state.enabled) && old(loaded.enabled) ==> compilerManager.listeners == old(compilerManager.listeners) + multiset{collector}
      ensures old(state.enabled) && !old(loaded.enabled) ==> compilerManager.listeners == old(compilerManager.listeners) - multiset{collector}
      ensures old(state.enabled) == old(loaded.enabled) ==> compilerManager.listeners == old(compilerManager.listeners)
      ensures Valid()
    {
      var target := loaded.enabled;
      SetEnabled(target);
      state.enabled := loaded.enabled;
    }
  }
}
