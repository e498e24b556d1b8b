/*
 * The theme manager object. Its fields are the source's fields; timers and
 * promises are replaced by event methods that the environment calls:
 * Reconcile (the settings loaded or changed), TimerFires (the retry timer
 * expired), LoadSettles (a load's promise settled) and ChainedRuns (the
 * reconcile a deferral chained on a load runs). Every event is proved to leave
 * the fields in the state the matching ThemeSpec function describes.
 */
module ThemeManagement {
  import opened ThemeSpec

  class ThemeManager {
    /** The base URL for local stylesheets and the URL helpers used with it. */
    const base: string
    const isLocal: string -> bool
    const join: (string, string) -> string

    var themes: map<string, Theme>
    var current: Option<string>
    var links: seq<Link>
    var outstanding: Option<nat>
    var pending: bool
    var requests: map<string, nat>
    var loads: seq<Load>
    var log: seq<Notice>

    /** The fields as a value of the state machine. */
    function State(): Snapshot
      reads this
    {
      Snapshot(themes, current, links, outstanding, pending, requests, loads, log)
    }

    predicate Valid()
      reads this
    {
      State().Valid()
    }

    constructor (base: string, isLocal: string -> bool, join: (string, string) -> string)
      ensures Valid() && State() == Initial
      ensures this.base == base && this.isLocal == isLocal && this.join == join
    {
      this.base := base;
      this.isLocal := isLocal;
      this.join := join;
      themes := map[];
      current := None;
      links := [];
      outstanding := None;
      pending := false;
      requests := map[];
      loads := [];
      log := [];
    }

    /** The href `loadCSS` gives a stylesheet: local paths are resolved against the base URL. */
    function Href(path: string): (href: string)
      ensures isLocal(path) ==> href == join(base, path)
      ensures !isLocal(path) ==> href == path
    {
      if isLocal(path) then join(base, path) else path
    }

    /** `loadCSS`: attaches one stylesheet link and records it. */
    method LoadCss(path: string)
      modifies this`links
      ensures links == old(links) + [Link(Href(path))]
    {
      var href := Href(path);
      links := links + [Link(href)];
    }

    /** `isLight`: the flag of a registered theme; an unregistered name faults. */
    function IsLight(name: string): (r: bool)
      reads this
      requires name in themes
      ensures r <==> themes[name].isLight
    {
      themes[name].isLight
    }

    /**
     * `themeScrollbars`: whether scrollbar styling is enabled in the settings
     * and the theme styles scrollbars. The registry is only consulted when the
     * setting is on, so only then must the name be registered.
     */
    function ThemeScrollbars(enabled: bool, name: string): (r: bool)
      reads this
      requires enabled ==> name in themes
      ensures r ==> name in themes && themes[name].themeScrollbars
      ensures r <==> enabled && themes[name].themeScrollbars
    {
      enabled && themes[name].themeScrollbars
    }

    /** `register`: refuses a name in use, otherwise adds the theme and returns its handle. */
    method Register(theme: Theme) returns (handle: Option<ThemeHandle>)
      modifies this`themes
      ensures handle.None? <==> theme.name in old(themes)
      ensures handle.None? ==> themes == old(themes)
      ensures handle.Some? ==>
        && ThemeSpec.Register(old(State()), theme) == Some(State())
        && fresh(handle.value)
        && handle.value.manager == this && handle.value.name == theme.name
        && !handle.value.isDisposed
    {
      if theme.name in themes {
        return None;
      }
      themes := themes[theme.name := theme];
      var h := new ThemeHandle(this, theme.name);
      handle := Some(h);
    }

    /** `_loadTheme`: returns the index of the started load, or None when it threw. */
    method LoadTheme(theme: string) returns (id: Option<nat>)
      requires theme in themes
      modifies this`links, this`loads
      ensures var e := ThemeSpec.LoadTheme(old(State()), theme);
              && State() == e.state
              && (id.Some? <==> e.Started?)
              && (id.Some? ==> id.value == e.id)
    {
      links := [];
      if current.Some? && current.value != "" && current.value !in themes {
        return None;
      }
      loads := loads + [Load(theme, current, Running, false)];
      id := Some(|loads| - 1);
    }

    /** `_loadSettings`: the reconcile run when the settings are loaded or change. */
    method Reconcile(desired: string, fallback: string) returns (raised: bool)
      requires Valid()
      modifies this
      ensures Valid()
      ensures var e := LoadSettings(old(State()), desired, fallback);
              State() == e.state && raised == e.Raised?
    {
      if pending {
        pending := false;
      }
      if outstanding.Some? {
        var id := outstanding.value;
        loads := loads[id := loads[id].(chained := true)];
        outstanding := None;
        return false;
      }
      raised := Attempt(desired, fallback);
    }

    /** The part of `Reconcile` that runs once the slot is found empty. */
    method Attempt(desired: string, fallback: string) returns (raised: bool)
      requires Valid() && outstanding.None? && !pending
      modifies this
      ensures var e := LoadSettings(old(State()), desired, fallback);
              State() == e.state && raised == e.Raised?
    {
      requests := requests[desired := Attempts(requests, desired) + 1];
      if desired in themes {
        var id := LoadTheme(desired);
        if id.None? {
          return true;
        }
        outstanding := id;
        requests := requests - {desired};
        return false;
      }
      if requests[desired] > REQUEST_THRESHOLD {
        requests := requests - {desired};
        raised := GiveUp(desired, fallback);
        return;
      }
      pending := true;
      raised := false;
    }

    /** Giving up on `desired`: loads the default if it is registered, else reports an error. */
    method GiveUp(desired: string, fallback: string) returns (raised: bool)
      requires Valid() && outstanding.None? && !pending
      modifies this
      ensures var e := ThemeSpec.GiveUp(old(State()), desired, fallback);
              State() == e.state && raised == e.Raised?
    {
      if fallback !in themes {
        log := log + [NeitherLoaded(desired, fallback)];
        return false;
      }
      log := log + [FallbackUsed(desired, fallback)];
      var id := LoadTheme(fallback);
      if id.None? {
        return true;
      }
      outstanding := id;
      raised := false;
    }

    /** The retry timer expires and reconciles again. */
    method TimerFires(desired: string, fallback: string) returns (raised: bool)
      requires Valid() && pending
      modifies this
      ensures Valid()
      ensures var e := LoadSettings(old(State()), desired, fallback);
              State() == e.state && raised == e.Raised?
    {
      raised := Reconcile(desired, fallback);
    }

    /** The promise of load `id` settles, successfully or not. */
    method LoadSettles(id: nat, success: bool)
      requires Valid() && id < |loads| && loads[id].status == Running
      modifies this
      ensures Valid()
      ensures State() == Settle(old(State()), id, success)
    {
      var load := loads[id];
      if success {
        loads := loads[id := load.(status := Loaded)];
        current := Some(load.theme);
        log := log + [ThemeChanged(load.previous, load.theme)];
      } else {
        loads := loads[id := load.(status := Rejected)];
        log := log + [LoadFailed(load.theme)];
      }
    }

    /** The reconcile chained on settled load `id` runs; if it raises, the catch handler runs it again. */
    method ChainedRuns(id: nat, desired: string, fallback: string)
      requires Valid() && id < |loads| && loads[id].status != Running && loads[id].chained
      modifies this
      ensures Valid()
      ensures State() == RunChained(old(State()), id, desired, fallback)
    {
      loads := loads[id := loads[id].(chained := false)];
      var raised := Reconcile(desired, fallback);
      if raised {
        raised := Reconcile(desired, fallback);
      }
    }
  }

  /** The disposable `register` returns; disposing it a second time does nothing. */
  class ThemeHandle {
    const manager: ThemeManager
    const name: string
    var isDisposed: bool

    constructor (manager: ThemeManager, name: string)
      ensures this.manager == manager && this.name == name && !isDisposed
    {
      this.manager := manager;
      this.name := name;
      isDisposed := false;
    }

    /** Deletes the handle's name from the registry, on the first call only. */
    method Dispose()
      modifies this, manager`themes
      ensures isDisposed
      ensures manager.State() ==
        if old(isDisposed) then old(manager.State()) else Unregister(old(manager.State()), name)
    {
      if !isDisposed {
        isDisposed := true;
        manager.themes := manager.themes - {name};
      }
    }
  }
}
