/**
 * The workspace's notification state as a value, and the effect of each
 * lifecycle operation on it. The `Workspace` class updates its fields in
 * place; each of its methods is specified by one of the functions below, and
 * the lemmas here state what those operations guarantee.
 */
module Lifecycle {

  import opened Wrappers
  import opened Registry

  /** The key a dismissal subscription captured when it was registered: the
      subscription dismisses by key, not by handle. */
  datatype Subscription = Subscription(kind: Kind, id: nat)

  /** The optional click action of a toast: a button label and an opaque
      callback token. */
  datatype ClickAction = ClickAction(message: string, callback: nat)

  /** A toast: instance id, message and optional click action. */
  datatype Toast = Toast(id: nat, msg: string, onClick: Option<ClickAction>)

  /**
   * `notifications` is the registry in display order. `views` is every view a
   * builder has produced; a handle is an index into it, so `|views|` is the
   * next fresh handle and its growth shows that a builder ran.
   * `subscriptions` maps each built handle to the key its dismissal
   * subscription dismisses. `notifyCount` counts `cx.notify()` calls.
   */
  datatype WorkspaceState = WorkspaceState(
    notifications: seq<Entry>,
    views: seq<View>,
    subscriptions: map<nat, Subscription>,
    notifyCount: nat)

  /** The invariant every operation keeps: one entry per key, and every entry
      has a built, subscribed view of its own kind. */
  predicate Wellformed(st: WorkspaceState) {
    && UniqueKeys(st.notifications)
    && (forall h :: h in st.subscriptions ==>
          h < |st.views| && KindOf(st.views[h]) == st.subscriptions[h].kind)
    && (forall e :: e in st.notifications ==>
          e.handle in st.subscriptions && st.subscriptions[e.handle] == Subscription(e.kind, e.id))
  }

  /** A workspace before any notification. */
  const Initial := WorkspaceState([], [], map[], 0)

  /** The instance id `show_error` uses. */
  const ErrorId: nat := 0

  /** `show_notification`: if no entry has the key, run the builder (a fresh
      handle for `view`), subscribe to its dismissal, append the entry and
      notify; otherwise nothing happens. */
  function Show(st: WorkspaceState, id: nat, view: View): WorkspaceState {
    var kind := KindOf(view);
    if Contains(st.notifications, kind, id) then st
    else
      var h := |st.views|;
      st.(notifications := st.notifications + [Entry(kind, id, h)],
          views := st.views + [view],
          subscriptions := st.subscriptions[h := Subscription(kind, id)],
          notifyCount := st.notifyCount + 1)
  }

  /** `dismiss_notification_internal`: retain the entries with another key;
      notify once per removed entry. */
  function Dismiss(st: WorkspaceState, kind: Kind, id: nat): WorkspaceState {
    st.(notifications := Retain(st.notifications, kind, id),
        notifyCount := st.notifyCount + MatchCount(st.notifications, kind, id))
  }

  /** A view's dismissal event: the subscription registered for it, if any,
      dismisses the key it captured. */
  function DismissEvent(st: WorkspaceState, handle: nat): WorkspaceState {
    if handle in st.subscriptions then
      var sub := st.subscriptions[handle];
      Dismiss(st, sub.kind, sub.id)
    else st
  }

  /** The message view a toast builds, with or without its click action. */
  function ToastView(t: Toast): View {
    match t.onClick
    case Some(action) => MessageNotification(t.msg, Some(action.message), Some(action.callback))
    case None => MessageNotification(t.msg, None, None)
  }

  /** The message view `show_error` builds from the error's debug text. */
  function ErrorView(debug: string): View {
    MessageNotification("Error: " + debug, None, None)
  }

  /** `show_toast`: dismiss the message entry with the toast's id, then show. */
  function ShowToast(st: WorkspaceState, t: Toast): WorkspaceState {
    Show(Dismiss(st, MessageKind, t.id), t.id, ToastView(t))
  }

  /** `show_error`: show an error message at `(MessageKind, 0)`, no dismiss first. */
  function ShowError(st: WorkspaceState, debug: string): WorkspaceState {
    Show(st, ErrorId, ErrorView(debug))
  }

  /** Show on a fresh key: the builder runs once, exactly one entry with the new
      handle is appended after the unchanged earlier entries, and notify is
      raised once. On a taken key: nothing changes, the builder does not run. */
  lemma ShowEffect(st: WorkspaceState, id: nat, view: View)
    ensures var r := Show(st, id, view);
      var kind := KindOf(view);
      if Contains(st.notifications, kind, id) then r == st
      else
        && |r.notifications| == |st.notifications| + 1
        && r.notifications[..|st.notifications|] == st.notifications
        && r.notifications[|st.notifications|] == Entry(kind, id, |st.views|)
        && r.views == st.views + [view]
        && r.notifyCount == st.notifyCount + 1
  {
    var r := Show(st, id, view);
    if !Contains(st.notifications, KindOf(view), id) {
      assert r.notifications[..|st.notifications|] == st.notifications;
    }
  }

  lemma ShowKeepsWellformed(st: WorkspaceState, id: nat, view: View)
    requires Wellformed(st)
    ensures Wellformed(Show(st, id, view))
  {
    var kind := KindOf(view);
    if !Contains(st.notifications, kind, id) {
      AppendKeepsUnique(st.notifications, Entry(kind, id, |st.views|));
    }
  }

  /** After show, the key is present exactly once. */
  lemma ShowLeavesOne(st: WorkspaceState, id: nat, view: View)
    requires Wellformed(st)
    ensures MatchCount(Show(st, id, view).notifications, KindOf(view), id) == 1
  {
    var r := Show(st, id, view);
    var kind := KindOf(view);
    ShowKeepsWellformed(st, id, view);
    if !Contains(st.notifications, kind, id) {
      assert Matches(r.notifications[|st.notifications|], kind, id);
    }
    MatchCountUnique(r.notifications, kind, id);
  }

  /** Dismiss leaves no entry with the key; removes just the matching entry,
      keeping the rest in order; notifies once if something was removed; and
      with no match changes nothing. */
  lemma DismissEffect(st: WorkspaceState, kind: Kind, id: nat)
    requires Wellformed(st)
    ensures var r := Dismiss(st, kind, id);
      && !Contains(r.notifications, kind, id)
      && (forall i :: 0 <= i < |st.notifications| && Matches(st.notifications[i], kind, id) ==>
            r.notifications == st.notifications[..i] + st.notifications[i + 1..])
      && r.notifyCount == st.notifyCount + (if Contains(st.notifications, kind, id) then 1 else 0)
      && (!Contains(st.notifications, kind, id) ==> r == st)
  {
    var r := Dismiss(st, kind, id);
    MatchCountUnique(st.notifications, kind, id);
    RetainAbsent(st.notifications, kind, id);
    forall i | 0 <= i < |st.notifications| && Matches(st.notifications[i], kind, id)
      ensures r.notifications == st.notifications[..i] + st.notifications[i + 1..]
    {
      RetainRemovesAt(st.notifications, i);
    }
    if !Contains(st.notifications, kind, id) {
      RetainNoMatch(st.notifications, kind, id);
    }
  }

  /** The retained sequence has no entry with the dismissed key. */
  lemma RetainAbsent(s: seq<Entry>, kind: Kind, id: nat)
    ensures !Contains(Retain(s, kind, id), kind, id)
  {
    var r := Retain(s, kind, id);
    RetainMembers(s, kind, id);
    forall i | 0 <= i < |r| ensures !Matches(r[i], kind, id) {
      assert r[i] in r;
    }
  }

  lemma DismissKeepsWellformed(st: WorkspaceState, kind: Kind, id: nat)
    requires Wellformed(st)
    ensures Wellformed(Dismiss(st, kind, id))
  {
    RetainKeepsUnique(st.notifications, kind, id);
    RetainMembers(st.notifications, kind, id);
  }

  /** A dismissal event from the view of an active entry removes that entry and
      no other, keeping the order of the rest. */
  lemma DismissEventRemovesEntry(st: WorkspaceState, i: nat)
    requires Wellformed(st) && i < |st.notifications|
    ensures var r := DismissEvent(st, st.notifications[i].handle);
      && r.notifications == st.notifications[..i] + st.notifications[i + 1..]
      && r.notifyCount == st.notifyCount + 1
      && Wellformed(r)
  {
    var e := st.notifications[i];
    assert e in st.notifications;
    assert Matches(st.notifications[i], e.kind, e.id);
    DismissEffect(st, e.kind, e.id);
    DismissKeepsWellformed(st, e.kind, e.id);
  }

  /** A toast replaces: afterwards the message entry with the toast's id is
      unique, is the last entry, has the newly built handle whose view is the
      toast's; and with that key set aside the registry is as before. */
  lemma ToastReplaces(st: WorkspaceState, t: Toast)
    requires Wellformed(st)
    ensures var r := ShowToast(st, t);
      var n := |r.notifications|;
      && Wellformed(r)
      && MatchCount(r.notifications, MessageKind, t.id) == 1
      && n > 0 && r.notifications[n - 1] == Entry(MessageKind, t.id, |st.views|)
      && r.views == st.views + [ToastView(t)]
      && Retain(r.notifications, MessageKind, t.id) == Retain(st.notifications, MessageKind, t.id)
  {
    var d := Dismiss(st, MessageKind, t.id);
    var kept := d.notifications;
    var e := Entry(MessageKind, t.id, |st.views|);
    RetainAbsent(st.notifications, MessageKind, t.id);
    DismissKeepsWellformed(st, MessageKind, t.id);
    ShowKeepsWellformed(d, t.id, ToastView(t));
    ShowLeavesOne(d, t.id, ToastView(t));
    assert ShowToast(st, t).notifications == kept + [e];
    RetainConcat(kept, [e], MessageKind, t.id);
    assert Retain([e], MessageKind, t.id) == [] by {
      assert [e][..0] == [];
    }
    RetainNoMatch(kept, MessageKind, t.id);
  }

  /** Two toasts with one id in a row leave one message entry with that id,
      showing the second toast. */
  lemma ToastTwice(st: WorkspaceState, a: Toast, b: Toast)
    requires Wellformed(st) && a.id == b.id
    ensures var r := ShowToast(ShowToast(st, a), b);
      && MatchCount(r.notifications, MessageKind, b.id) == 1
      && Contains(r.notifications, MessageKind, b.id)
      && forall e :: e in r.notifications && Matches(e, MessageKind, b.id) ==>
           e.handle < |r.views| && r.views[e.handle] == ToastView(b)
  {
    var mid := ShowToast(st, a);
    ToastReplaces(st, a);
    ToastReplaces(mid, b);
    var r := ShowToast(mid, b);
    var n := |r.notifications|;
    assert Matches(r.notifications[n - 1], MessageKind, b.id);
    forall e | e in r.notifications && Matches(e, MessageKind, b.id)
      ensures e.handle < |r.views| && r.views[e.handle] == ToastView(b)
    {
      var i :| 0 <= i < n && r.notifications[i] == e;
      assert Matches(r.notifications[i], r.notifications[n - 1].kind, r.notifications[n - 1].id);
    }
  }

  /** `show_error` leaves exactly one `(MessageKind, 0)` entry. An entry already
      there is kept and the new error is dropped; otherwise the new entry is
      last and its text is "Error: " followed by the debug text. */
  lemma ShowErrorEffect(st: WorkspaceState, debug: string)
    requires Wellformed(st)
    ensures var r := ShowError(st, debug);
      && Wellformed(r)
      && MatchCount(r.notifications, MessageKind, ErrorId) == 1
      && (Contains(st.notifications, MessageKind, ErrorId) ==> r == st)
      && (!Contains(st.notifications, MessageKind, ErrorId) ==>
            var n := |r.notifications|;
            && n > 0 && r.notifications[n - 1] == Entry(MessageKind, ErrorId, |st.views|)
            && r.views[|st.views|].message[..7] == "Error: "
            && r.views[|st.views|].message[7..] == debug)
  {
    ShowKeepsWellformed(st, ErrorId, ErrorView(debug));
    ShowLeavesOne(st, ErrorId, ErrorView(debug));
  }
}
