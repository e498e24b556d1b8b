# Theme manager bookkeeping

This project models the bookkeeping of JupyterLab's `ThemeManager`
(`jupyterlab/packages/apputils/src/thememanager.ts`) and proves properties of it.

The manager keeps a registry of themes keyed by name. Whenever the settings
change, it reconciles the theme currently applied with the desired one. A
theme that is not registered yet is retried every `REQUEST_INTERVAL` (75 ms).
After `REQUEST_THRESHOLD` (20) retries it is given up on, and the settings
default is used instead. At most one load is held in the `_outstanding`
promise slot, and a reconcile that finds the slot full defers until that load
settles.

Files:

- `theme_spec.dfy`, module `ThemeSpec`: the manager's fields as a `Snapshot`
  value. There is one function per event: `LoadSettings` (`_loadSettings`),
  `LoadTheme` (`_loadTheme` as far as the state is concerned), `Settle` (a
  load's promise settles), `RunChained` (the reconcile a deferral chained on a
  load), `Register` and `Unregister`. The file also holds `RetryRun` (the retry
  budget) and the lemmas relating several events.
- `theme_manager.dfy`, module `ThemeManagement`: class `ThemeManager`, whose
  fields are the source's fields. Its methods update them step by step, in the
  order the source does. Each event method (`Reconcile`, `Attempt`, `GiveUp`,
  `TimerFires`, `LoadSettles`, `ChainedRuns`, `LoadTheme`, `Register`) is proved
  to leave exactly the state that the matching `ThemeSpec` function gives.
  `LoadCss` has no `ThemeSpec` counterpart; its contract states the link it
  appends. Class `ThemeHandle` is the disposable
  that `register` returns.
- `fit_all.dfy`, module `Private`: `fitAll` over a widget tree. Nodes are named
  by their paths, so the order of the `fit` calls can be stated.

Timers and promises are replaced by event methods the environment calls:

- `Reconcile`: the settings were loaded or changed.
- `TimerFires`: the retry timer expired.
- `LoadSettles(id, success)`: the promise of a load settled.
- `ChainedRuns`: the reconcile chained on a settled load runs.

The desired theme (`composite['theme']`) and the settings default are
parameters of each reconcile. The stylesheet links are abstract handles that
carry their href. The theme-changed signal, the error dialogs and the fallback
warning are appended to an event log (`log`).

Behaviour of the code that the model keeps:

- A deferral empties the `_outstanding` slot at once (line 180) rather than when
  the load settles. A second reconcile that arrives while the first load still
  runs therefore starts another load beside it (`ThemeSpec.OverlappingLoads`).
  The comment at lines 169-171 says a reconcile must wait until the load in
  progress finishes, so that the order of loads is enforced. Emptying the slot
  at line 180 breaks that promise. The model follows the code.
- The slot keeps a promise after it has settled. The next reconcile therefore
  defers once more and does its work in the chained callback.
- The theme is given up on at the call where its count exceeds 20. So a theme
  that is never registered gets exactly 20 retries, and the 21st reconcile falls
  back to the default (`ThemeSpec.RetryRun`).
- Unregistering the applied theme does not unload it. The next load then looks
  up the applied theme's `unload` in the registry, finds nothing and throws
  (line 240). An applied theme named by the empty string is falsy there, so it
  is not looked up and the load goes ahead. By the time of the throw the links
  have already been cleared. When the desired theme was being loaded, its
  attempt count has been incremented. When the default was being loaded, the
  desired theme's count has already been deleted (line 199). When the throw
  happens inside a chained callback, its `.catch` handler reconciles a second
  time.
- The change notification's old value is the theme that was current when the
  load started, not the one current when it settles.

## Model

| member | source | states |
|---|---|---|
| `ThemeSpec.LoadSettings` | jupyterlab/packages/apputils/src/thememanager.ts:154-215 | a pending retry is always cancelled; with a load in the slot the reconcile only chains itself on it and empties the slot, leaving the counts unchanged and starting nothing; otherwise the desired name's count goes up by one from 0; a registered theme starts loading, becomes the slot's load and loses its count; an unregistered one within budget gets exactly one retry and no load; past the budget its count is dropped and the default is loaded, or, if the default is missing too, an error is logged and nothing becomes outstanding; the slot/timer invariant is kept |
| `ThemeSpec.LoadTheme` | jupyterlab/packages/apputils/src/thememanager.ts:223-242 | all links are detached before the load starts; the load records the theme and the previous current theme; it throws exactly when the applied theme is a non-empty name that is no longer registered; nothing else changes |
| `ThemeSpec.Settle` | jupyterlab/packages/apputils/src/thememanager.ts:242-266 | on success the current theme becomes the loaded one and the change carries the previous theme as old value and the loaded one as new value; on failure the current theme is unchanged and an error is logged; only that load's status changes |
| `ThemeSpec.RunChained` | jupyterlab/packages/apputils/src/thememanager.ts:172-214 | the chained reconcile consumes its mark on the load and does not set it again; the registry and the current theme are untouched; the invariant is kept; if another load holds the slot, it defers onto that load, marking it and emptying the slot, and changes nothing else; with an empty slot the whole new state is given for each outcome: a registered desired theme that loads has its load appended and outstanding, its count dropped, the other counts and the log kept and the links cleared; an unregistered desired theme within budget gets one retry with its count up by one and nothing else changed; past the budget its count is dropped and either the error is logged with nothing started, or the fallback warning is logged, the links cleared and the default's load appended and outstanding; when loading the desired theme throws, the `.catch` run throws again, so its count goes up by two, the links are cleared and nothing is outstanding; when loading the default throws, the `.catch` run starts the desired theme's count again at 1, schedules a retry and logs the fallback warning once |
| `ThemeSpec.Register` | jupyterlab/packages/apputils/src/thememanager.ts:111-119 | fails exactly when the name is already registered, leaving the entry as it was; otherwise the name maps to the given theme and nothing else changes |
| `ThemeSpec.Unregister` | jupyterlab/packages/apputils/src/thememanager.ts:121-123 | exactly that name is removed, the other entries keep their themes, and the current theme and all other state are untouched |
| `ThemeSpec.RegisterThenUnregister` | jupyterlab/packages/apputils/src/thememanager.ts:111-124 | unregistering a freshly registered theme restores the state before registration |
| `ThemeSpec.UnregisterTwice` | jupyterlab/packages/apputils/src/thememanager.ts:121-123 | removing a name a second time changes nothing |
| `ThemeSpec.RetryRun` | jupyterlab/packages/apputils/src/thememanager.ts:185-214 | a theme that stays unregistered gets exactly its remaining budget of retries (20 from a fresh count, never more than 20); then no retry is pending, its count is dropped, and the default's load is outstanding, unless unloading the applied theme throws, in which case the last reconcile raises with the links cleared and nothing outstanding; if the default is unregistered, the error is logged |
| `ThemeSpec.SwitchTheme` | jupyterlab/packages/apputils/src/thememanager.ts:188-266 | reconciling towards a registered theme and settling its load leaves no old links; the current theme becomes the desired one with a change from the previous one on success, and stays as it was with an error on failure |
| `ThemeSpec.OverlappingLoads` | jupyterlab/packages/apputils/src/thememanager.ts:172-192 | with a running load in the slot, two reconciles in a row leave that load running and start a second running load in the slot |
| `ThemeSpec.LateRegistration` | jupyterlab/packages/apputils/src/thememanager.ts:185-214 | a theme requested before registration gets one retry with count 1; after it is registered the retry loads it, and success notifies a change from no theme to it |
| `ThemeManagement.ThemeManager.constructor` | jupyterlab/packages/apputils/src/thememanager.ts:280-290 | a new manager has an empty registry, no current theme, no links, no outstanding load, no pending retry and no counts |
| `ThemeManagement.ThemeManager.Href` | jupyterlab/packages/apputils/src/thememanager.ts:82-83 | a local path is joined to the base URL; any other path is used as it is |
| `ThemeManagement.ThemeManager.LoadCss` | jupyterlab/packages/apputils/src/thememanager.ts:81-102 | exactly one link, carrying that href, is appended and nothing else changes |
| `ThemeManagement.ThemeManager.IsLight` | jupyterlab/packages/apputils/src/thememanager.ts:136-138 | the light flag of a registered theme; defined only for registered names |
| `ThemeManagement.ThemeManager.ThemeScrollbars` | jupyterlab/packages/apputils/src/thememanager.ts:144-149 | true exactly when the setting is on and the theme styles scrollbars; the name must be registered only when the setting is on |
| `ThemeManagement.ThemeManager.Register` | jupyterlab/packages/apputils/src/thememanager.ts:111-124 | a duplicate name is refused and the registry left unchanged; otherwise the registry changes as `ThemeSpec.Register` says and a fresh, undisposed handle for that name is returned |
| `ThemeManagement.ThemeManager.LoadTheme` | jupyterlab/packages/apputils/src/thememanager.ts:223-242 | updates the fields to `ThemeSpec.LoadTheme`'s state and returns the new load's index, or none when it threw |
| `ThemeManagement.ThemeManager.Reconcile` | jupyterlab/packages/apputils/src/thememanager.ts:154-215 | updates the fields step by step to exactly `ThemeSpec.LoadSettings`'s state, and reports whether it raised |
| `ThemeSpec.GiveUp` | jupyterlab/packages/apputils/src/thememanager.ts:196-208 | with the default missing, only the error is logged; otherwise the fallback warning is logged and the links are cleared, and the default's load is appended and outstanding, or, when unloading the applied theme throws, it raises with nothing outstanding; the registry, the counts, the timer and the current theme are untouched |
| `ThemeManagement.ThemeManager.Attempt` | jupyterlab/packages/apputils/src/thememanager.ts:184-214 | with the slot empty, counts the attempt and loads, gives up or schedules a retry, reaching exactly the state `ThemeSpec.LoadSettings` gives for an empty slot |
| `ThemeManagement.ThemeManager.GiveUp` | jupyterlab/packages/apputils/src/thememanager.ts:196-208 | loads the default if it is registered, after logging the fallback warning; otherwise logs the error and starts nothing |
| `ThemeManagement.ThemeManager.TimerFires` | jupyterlab/packages/apputils/src/thememanager.ts:211-214 | when the scheduled retry fires, the fields reach `ThemeSpec.LoadSettings`'s state |
| `ThemeManagement.ThemeManager.LoadSettles` | jupyterlab/packages/apputils/src/thememanager.ts:242-266 | the fields reach `ThemeSpec.Settle`'s state |
| `ThemeManagement.ThemeManager.ChainedRuns` | jupyterlab/packages/apputils/src/thememanager.ts:172-179 | the fields reach `ThemeSpec.RunChained`'s state: a reconcile, and a second one if the first raised |
| `ThemeManagement.ThemeHandle.Dispose` | jupyterlab/packages/apputils/src/thememanager.ts:121-123 | the first dispose removes exactly the handle's name (as `ThemeSpec.Unregister`), later ones change nothing; the current theme is never touched |
| `Private.FitAll` | jupyterlab/packages/apputils/src/thememanager.ts:332-335 | `fitAll` makes at least one `fit` call, and the last one is on the widget it was called on |
| `Private.FitAllOrder` | jupyterlab/packages/apputils/src/thememanager.ts:332-335 | every node of the widget tree is fitted, exactly once, each before all of its ancestors, and the root last |

## Left out

- DOM work: creating and appending link elements, removing them on a theme switch, and their `load`/`error` listeners. Links are abstract handles, and a stylesheet's own load outcome belongs to the theme's `load` promise, which is the `success` input of `LoadSettles`.
- Timers, `requestAnimationFrame` and promise scheduling: these are explicit events. Concurrency is not modelled.
- The chained callback's `.catch` handler runs a second `_loadSettings` a microtask later. The model gives that second run the same desired and default names as the first.
- Settings I/O: `registry.load` in the constructor, the change subscription and `setTheme`, which only writes the setting. The desired and default theme names are inputs.
- Splash screen, `host.hide`/`host.show`, the redraw and the error dialog: the dialog and the fallback warning appear only as log entries. `Private.FitAllOrder` gives the order of the `fit` calls.
- The `theme` and `themes` getters: they read `current` and the registry's keys directly.
- `URLExt.isLocal` and `URLExt.join`: library code that is not part of this model. They are functions given to the constructor.
- `DisposableDelegate`: library code that is not part of this model. Its documented behaviour is modelled: the callback runs on the first `dispose` only.
- `ThemeManagement.ThemeManager.ThemeScrollbars`: the setting's value is taken as a boolean. The truthiness of an arbitrary settings value is not modelled.
- JavaScript object dictionaries: the registry and the counts are plain maps. Names such as `constructor` inherited from `Object.prototype` read as present in the source and are not modelled.
- `dataregistry/src/nested.ts`: it declares a type-tag constant and has no behaviour.
