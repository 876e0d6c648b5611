/**
 * Client code written against the method contracts and the Lifecycle lemmas,
 * never the method bodies, walking through the behaviours of the operations:
 * toasts replace, once-shown stays shown, and an error behind an active
 * message entry is dropped.
 */
module Scenarios {

  import opened Wrappers
  import opened Registry
  import opened OnceTracker
  import opened Lifecycle
  import opened Notifications

  /** Two toasts with one id: one message entry remains, showing the second. */
  method ToastsReplace(ws: Workspace, id: nat, first: string, second: string)
    requires ws.Valid()
    modifies ws
  {
    var a, b := Toast(id, first, None), Toast(id, second, None);
    ToastTwice(ws.St(), a, b);
    ws.ShowToast(a);
    ws.ShowToast(b);
    assert MatchCount(ws.notifications, MessageKind, id) == 1;
    assert forall e :: e in ws.notifications && Matches(e, MessageKind, id) ==>
      e.handle < |ws.views| && ws.views[e.handle] == MessageNotification(second, None, None);
  }

  /** Once shown, a pair stays shown after its dismissal, and a second
      `show_notification_once` does not run its builder. */
  method OnceStaysShown(ws: Workspace, tracker: NotificationTracker, id: nat, view: View)
    requires ws.Valid() && tracker.Valid()
    modifies ws, tracker
  {
    ws.ShowNotificationOnce(tracker, id, view);
    ws.DismissNotification(KindOf(view), id);
    assert ws.HasShownNotificationOnce(tracker, KindOf(view), id);
    var built := |ws.views|;
    ws.ShowNotificationOnce(tracker, id, view);
    assert |ws.views| == built;
  }

  /** An error while a toast with id 0 is active: the toast stays, the error
      is not shown, and `notify_err` returns nothing. */
  method ErrorBehindToast(ws: Workspace, msg: string, err: string)
    requires ws.Valid()
    modifies ws
  {
    ws.ShowToast(Toast(ErrorId, msg, None));
    ToastReplaces(old(ws.St()), Toast(ErrorId, msg, None));
    var before := ws.St();
    MatchCountZero(before.notifications, MessageKind, ErrorId);
    var failed: Result<nat, string> := Err(err);
    var v := NotifyErr(failed, (e: string) => e, ws);
    assert v == None && ws.St() == before;
  }
}
