/**
 * The workspace's notification operations, updating its fields in place, and
 * the synchronous error adapter `notify_err`. Each method is specified by the
 * matching function of `Lifecycle` on the abstract state `St()`.
 */
module Notifications {

  import opened Wrappers
  import opened Registry
  import opened OnceTracker
  import opened Lifecycle

  class Workspace {
    /** The registry, in display order. */
    var notifications: seq<Entry>
    /** Every view a builder produced; a handle is an index into it. */
    var views: seq<View>
    /** The key each handle's dismissal subscription dismisses. */
    var subscriptions: map<nat, Subscription>
    /** How many times `cx.notify()` was called. */
    var notifyCount: nat

    function St(): WorkspaceState
      reads this
    {
      WorkspaceState(notifications, views, subscriptions, notifyCount)
    }

    ghost predicate Valid()
      reads this
    {
      Wellformed(St())
    }

    constructor ()
      ensures Valid() && St() == Initial
    {
      notifications, views, subscriptions, notifyCount := [], [], map[], 0;
    }

    /** The duplicate test of `show_notification`: every entry has another key. */
    method NoEntryFor(kind: Kind, id: nat) returns (absent: bool)
      ensures absent <==> !Contains(notifications, kind, id)
    {
      var i := 0;
      while i < |notifications|
        invariant 0 <= i <= |notifications|
        invariant forall j :: 0 <= j < i ==> !Matches(notifications[j], kind, id)
      {
        if Matches(notifications[i], kind, id) {
          return false;
        }
        i := i + 1;
      }
      return true;
    }

    /** `show_notification`: the builder is modelled by `view`; running it
        allocates the next handle. */
    method ShowNotification(id: nat, view: View)
      requires Valid()
      modifies this
      ensures Valid()
      ensures St() == Show(old(St()), id, view)
    {
      var kind := KindOf(view);
      var absent := NoEntryFor(kind, id);
      if absent {
        var handle := |views|;
        views := views + [view];
        subscriptions := subscriptions[handle := Subscription(kind, id)];
        notifications := notifications + [Entry(kind, id, handle)];
        notifyCount := notifyCount + 1;
      }
      ShowKeepsWellformed(old(St()), id, view);
    }

    /** `dismiss_notification_internal`: `retain` over the registry; the
        closure's `cx.notify()` calls, one per dropped entry, are added to the
        count. */
    method DismissNotificationInternal(kind: Kind, id: nat)
      requires Valid()
      modifies this
      ensures Valid()
      ensures St() == Dismiss(old(St()), kind, id)
    {
      var kept, removed := RetainEntries(notifications, kind, id);
      notifications := kept;
      notifyCount := notifyCount + removed;
      DismissKeepsWellformed(old(St()), kind, id);
    }

    /** `dismiss_notification::<V>`: dismiss by the kind of `V`. */
    method DismissNotification(kind: Kind, id: nat)
      requires Valid()
      modifies this
      ensures Valid()
      ensures St() == Dismiss(old(St()), kind, id)
    {
      DismissNotificationInternal(kind, id);
    }

    /** The view with `handle` emits its dismissal event (as
        `MessageNotification::dismiss` does): the subscription registered by
        `show_notification` dismisses the key it captured. */
    method OnDismissEvent(handle: nat)
      requires Valid()
      modifies this
      ensures Valid()
      ensures St() == DismissEvent(old(St()), handle)
    {
      if handle in subscriptions {
        var sub := subscriptions[handle];
        DismissNotificationInternal(sub.kind, sub.id);
      }
    }

    /** `has_shown_notification_once::<V>`, reading the process-wide tracker. */
    function HasShownNotificationOnce(tracker: NotificationTracker, kind: Kind, id: nat): (shown: bool)
      reads tracker
      ensures shown <==> kind in tracker.sent && id in tracker.sent[kind]
    {
      tracker.HasShown(kind, id)
    }

    /** `show_notification_once`: if not shown yet, record the id and then show;
        the id is recorded even when the show itself finds a duplicate. */
    method ShowNotificationOnce(tracker: NotificationTracker, id: nat, view: View)
      requires Valid() && tracker.Valid()
      modifies this, tracker
      ensures Valid() && tracker.Valid()
      ensures Grows(old(tracker.sent), tracker.sent)
      ensures Shown(tracker.sent, KindOf(view), id)
      ensures Shown(old(tracker.sent), KindOf(view), id) ==>
        St() == old(St()) && tracker.sent == old(tracker.sent)
      ensures !Shown(old(tracker.sent), KindOf(view), id) ==>
        St() == Show(old(St()), id, view) && tracker.sent == Recorded(old(tracker.sent), KindOf(view), id)
    {
      var kind := KindOf(view);
      if !HasShownNotificationOnce(tracker, kind, id) {
        RecordedGrows(tracker.sent, kind, id);
        RecordedShown(tracker.sent, kind, id, kind, id);
        tracker.Record(kind, id);
        ShowNotification(id, view);
      }
    }

    /** `show_error`: the debug text of the error is given as a string. */
    method ShowError(debug: string)
      requires Valid()
      modifies this
      ensures Valid()
      ensures St() == Lifecycle.ShowError(old(St()), debug)
    {
      ShowNotification(ErrorId, ErrorView(debug));
    }

    method ShowToast(toast: Toast)
      requires Valid()
      modifies this
      ensures Valid()
      ensures St() == Lifecycle.ShowToast(old(St()), toast)
    {
      DismissNotification(MessageKind, toast.id);
      ShowNotification(toast.id, ToastView(toast));
    }

    method DismissToast(id: nat)
      requires Valid()
      modifies this
      ensures Valid()
      ensures St() == Dismiss(old(St()), MessageKind, id)
    {
      DismissNotification(MessageKind, id);
    }
  }

  /** `notify_err`: pass a value through, or show the error (by its debug
      text) and return nothing. */
  method NotifyErr<T, E>(result: Result<T, E>, debug: E -> string, workspace: Workspace)
    returns (value: Option<T>)
    requires workspace.Valid()
    modifies workspace
    ensures workspace.Valid()
    ensures match result
      case Ok(v) => value == Some(v) && workspace.St() == old(workspace.St())
      case Err(e) => value == None && workspace.St() == Lifecycle.ShowError(old(workspace.St()), debug(e))
  {
    match result
    case Ok(v) =>
      value := Some(v);
    case Err(e) =>
      workspace.ShowError(debug(e));
      value := None;
  }
}
