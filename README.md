# Workspace notifications: registry, once-tracker and error adapter

A Dafny model of the notification bookkeeping of a workspace
(`crates/workspace/src/notifications.rs`):

- the **registry**, the workspace's ordered list of active `(kind, id, handle)`
  entries, with `show_notification` (append only if the key is free) and
  `dismiss_notification_internal` (`retain` the entries with another key);
- the **once-tracker**, the process-wide map from kind to the ids already shown
  once, read by `has_shown_notification_once` and grown by
  `show_notification_once`;
- the wrappers `show_toast` (dismiss, then show: a toast replaces),
  `dismiss_toast`, `show_error` (show at `(MessageKind, 0)`) and the synchronous
  error adapter `notify_err`.

Structure:

- `registry.dfy` (`Registry`): kinds, views, entries and the pure registry
  operations: the duplicate test `Contains`, `Retain` (the `retain` filter),
  `MatchCount`, the invariant `UniqueKeys`, and `RetainEntries`, the `retain`
  loop as a method.
- `tracker.dfy` (`OnceTracker`): `Shown`, `Recorded` (`entry().or_default().push()`),
  monotonicity `Grows`, and the `NotificationTracker` class holding the map.
- `lifecycle.dfy` (`Lifecycle`): the workspace's notification state as a value
  `WorkspaceState`, its invariant `Wellformed`, and one function per operation
  (`Show`, `Dismiss`, `DismissEvent`, `ShowToast`, `ShowError`) with the lemmas
  about them.
- `workspace.dfy` (`Notifications`): the `Workspace` class whose fields the
  methods update in place; each method's `ensures` equates the new state
  `St()` with the matching `Lifecycle` function of the old state; and `NotifyErr`.
- `scenarios.dfy` (`Scenarios`): client methods that use the method contracts
  and the Lifecycle lemmas, never the method bodies: two toasts with one id, a dismissed show-once, an error behind an
  active toast.
- `wrappers.dfy` (`Wrappers`): `Option` and `Result`.

Modelling choices:

- A Rust `TypeId` becomes the `Kind` datatype. `MessageKind` is the reserved
  kind of `MessageNotification`, and `ViewKind(name)` is the kind of any other
  view type. A view's kind is `KindOf(view)`, just as `View<V>` has kind
  `TypeId::of::<V>()`.
- A builder closure becomes the `View` value it would build. Running it appends
  that view to `views`, and the new view's handle is its index. So `|views|` is
  the handle counter, and its growth shows that a builder ran.
- `cx.notify()` becomes the counter `notifyCount`.
- `cx.subscribe(&notification, …)` becomes an entry in `subscriptions` from the
  handle to the key `(kind, id)` that its closure captured.
  `OnDismissEvent(handle)` is that view emitting `DismissEvent` (as
  `MessageNotification::dismiss` does). It dismisses the captured key.
- The global `NotificationTracker` becomes an object passed to the methods
  that use it.
- The debug text of an error (`{err:?}`) is an opaque string. `NotifyErr`
  receives it as a function `debug: E -> string` that it is given.

Behaviour of the code worth noting:

- A duplicate show builds nothing. The duplicate test (`iter().all(…)`,
  lines 97-103) runs before the builder, so on a taken key `views` is
  unchanged.
- Errors with id 0 do not replace one another. `show_error` does not dismiss
  first (lines 115-124), so an active `(MessageKind, 0)` entry, an earlier
  error or a toast with id 0, is kept and the new error is dropped
  (`ShowErrorEffect`, `Scenarios.ErrorBehindToast`).
- Dismiss calls `cx.notify()` once per removed entry, and not at all when
  nothing matches (lines 159-161).

## Model

| member | source | states |
|---|---|---|
| `Registry.Retain` | crates/workspace/src/notifications.rs:157-165 | the kept entries plus the removed ones account for every entry of the registry |
| `Registry.RetainMembers` | crates/workspace/src/notifications.rs:157-165 | an entry survives the retain exactly when it was present and its key is not the dismissed one |
| `Registry.RetainConcat` | crates/workspace/src/notifications.rs:157-165 | retain acts on each part of a concatenation separately, so the survivors keep their relative order |
| `Registry.RetainNoMatch` | crates/workspace/src/notifications.rs:157-165 | dismissing a key that no entry has leaves the registry unchanged |
| `Registry.RetainKeepsUnique` | crates/workspace/src/notifications.rs:157-165 | removal keeps the at-most-one-entry-per-key invariant |
| `Registry.RetainRemovesAt` | crates/workspace/src/notifications.rs:157-165 | with unique keys, dismissing the key of entry i removes exactly that entry and keeps all others in order |
| `Registry.RetainEntries` | crates/workspace/src/notifications.rs:157-165 | the retain loop returns the kept entries in order and the number of closure calls that dropped an entry (and so notified) |
| `Registry.MatchCountZero` | crates/workspace/src/notifications.rs:159-161 | no entry is dropped exactly when no entry has the key |
| `Registry.MatchCountUnique` | crates/workspace/src/notifications.rs:159-161 | with unique keys the retain drops, and notifies for, one entry if the key is present and none otherwise |
| `Registry.AppendKeepsUnique` | crates/workspace/src/notifications.rs:97-111 | appending an entry whose key is free keeps keys unique |
| `OnceTracker.RecordedShown` | crates/workspace/src/notifications.rs:70-73 | after recording (kind, id) a pair is shown exactly when it was shown before or is (kind, id); a kind with no list shows nothing |
| `OnceTracker.RecordedGrows` | crates/workspace/src/notifications.rs:83-85 | recording never makes a shown pair unshown: the tracker only grows |
| `OnceTracker.RecordedKeepsDistinct` | crates/workspace/src/notifications.rs:82-85 | recording only unshown ids keeps every kind's list free of repeats |
| `OnceTracker.NotificationTracker.constructor` | crates/workspace/src/notifications.rs:56-62 | a new tracker has shown nothing |
| `OnceTracker.NotificationTracker.Record` | crates/workspace/src/notifications.rs:82-85 | appends a not-yet-shown id to the kind's list, creating an empty list first if there was none, and keeps every list free of repeats |
| `Lifecycle.ShowEffect` | crates/workspace/src/notifications.rs:96-111 | on a free key the builder runs once (one view added), exactly one entry with the fresh handle is appended after the unchanged earlier entries, and notify is raised once; on a taken key nothing changes |
| `Lifecycle.ShowKeepsWellformed` | crates/workspace/src/notifications.rs:97-111 | show keeps unique keys and keeps every entry's view built and subscribed to its own key |
| `Lifecycle.ShowLeavesOne` | crates/workspace/src/notifications.rs:97-111 | after show the key is present exactly once |
| `Lifecycle.DismissEffect` | crates/workspace/src/notifications.rs:157-165 | after dismiss no entry has the key, the matching entry alone is removed with the others in order, notify is raised once exactly when something was removed, and without a match nothing changes |
| `Lifecycle.RetainAbsent` | crates/workspace/src/notifications.rs:157-165 | no entry with the dismissed key survives the retain |
| `Lifecycle.DismissKeepsWellformed` | crates/workspace/src/notifications.rs:157-165 | dismiss keeps the workspace invariant |
| `Lifecycle.DismissEventRemovesEntry` | crates/workspace/src/notifications.rs:105-108 | the dismissal event of an active entry's view removes that entry only, keeps the order of the rest, notifies once and keeps the invariant |
| `Lifecycle.ToastReplaces` | crates/workspace/src/notifications.rs:132-145 | after show_toast there is exactly one message entry with the toast's id; it is last, has the fresh handle and the toast's view; setting that key aside, the registry is as before |
| `Lifecycle.ToastTwice` | crates/workspace/src/notifications.rs:132-145 | two toasts with one id leave one message entry with that id, showing the second toast |
| `Lifecycle.ShowErrorEffect` | crates/workspace/src/notifications.rs:115-124 | show_error leaves exactly one (MessageKind, 0) entry; an active one is kept and the error dropped; otherwise the new last entry's text is "Error: " followed by the debug text |
| `Notifications.Workspace.NoEntryFor` | crates/workspace/src/notifications.rs:97-103 | the `iter().all(...)` scan is true exactly when no entry has the key |
| `Notifications.Workspace.ShowNotification` | crates/workspace/src/notifications.rs:90-113 | the new state is `Show` of the old: a checked append with a fresh handle, subscription and notify; the invariant is kept |
| `Notifications.Workspace.DismissNotificationInternal` | crates/workspace/src/notifications.rs:151-166 | the new state is `Dismiss` of the old: registry retained, one notify per removed entry; views and subscriptions untouched |
| `Notifications.Workspace.DismissNotification` | crates/workspace/src/notifications.rs:126-130 | delegates to the internal dismiss with the given kind |
| `Notifications.Workspace.OnDismissEvent` | crates/workspace/src/notifications.rs:105-108 | a view's dismissal event dismisses the key its subscription captured; an unsubscribed handle changes nothing |
| `Notifications.Workspace.HasShownNotificationOnce` | crates/workspace/src/notifications.rs:65-74 | true exactly when the kind has a list holding the id, false when the kind has no list |
| `Notifications.Workspace.ShowNotificationOnce` | crates/workspace/src/notifications.rs:76-88 | if not yet shown: records the id, even when the show that follows is a duplicate no-op, then shows; if shown: nothing changes and no builder runs; the tracker only grows |
| `Notifications.Workspace.ShowError` | crates/workspace/src/notifications.rs:115-124 | shows an "Error: " message view at (MessageKind, 0) without dismissing first |
| `Notifications.Workspace.ShowToast` | crates/workspace/src/notifications.rs:132-145 | dismisses the message entry with the toast's id, then shows the toast's view (with its click label and callback when it has one) |
| `Notifications.Workspace.DismissToast` | crates/workspace/src/notifications.rs:147-149 | dismisses the message-kind entry with the id |
| `Notifications.NotifyErr` | crates/workspace/src/notifications.rs:268-277 | `Ok(v)` gives `Some(v)` with no state change; `Err(e)` gives `None` after `show_error` with the debug text of e |

## Left out

- Rendering of `MessageNotification` (lines 219-247) and its builder methods
  `with_click_message` and `on_click`, beyond the fields they set in the built
  view: this is UI.
- `notify_async_err` and `detach_and_notify_err` (lines 279-309): they need
  async task spawning, re-entry into the window through `update_root`, and a
  downcast. This is concurrency and framework plumbing.
- `init` and the global registration of the tracker (lines 9-11): the tracker is
  an object passed to the methods instead.
- `log::error!` (line 272): logging is I/O.
- The `Notification` and `NotificationHandle` traits, `EntityId`/`AnyView`
  conversions and the `Deref`/`DerefMut` sugar (lines 13-54): handles are
  plain indices into `views`.
- Rust `TypeId` reflection: replaced by the `Kind` token.
- The text of `Debug` formatting: the debug text is an opaque string.
- Notifications.Workspace.DismissNotificationInternal: the closure's
  `cx.notify()` calls are added to the count after the retain; their
  interleaving with the retain is not observable in the model.
- Notifications.Workspace.OnDismissEvent: any subscribed handle may emit,
  including the view of an entry that was already removed or replaced. It then
  dismisses whatever entry now holds that key. The model does not capture that
  the framework usually releases a removed view, so such a view cannot emit
  any more.
- The usize width of ids: ids are unbounded naturals, since no arithmetic is
  done on them.
