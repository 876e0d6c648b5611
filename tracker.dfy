/**
 * The once-tracker: for every notification kind, the instance ids that have
 * been shown through `show_notification_once`. It lives as long as the
 * process and ids are only ever added to it.
 */
module OnceTracker {

  import opened Registry

  /** The tracker's contents: kind to the ids shown once, in the order shown. */
  type Sent = map<Kind, seq<nat>>

  /** `has_shown_notification_once`: the kind has a list and the id is in it. */
  function Shown(sent: Sent, kind: Kind, id: nat): bool {
    kind in sent && id in sent[kind]
  }

  /** `entry(kind).or_default().push(id)`. */
  function Recorded(sent: Sent, kind: Kind, id: nat): Sent {
    sent[kind := (if kind in sent then sent[kind] else []) + [id]]
  }

  /** Everything shown before is still shown after. */
  ghost predicate Grows(before: Sent, after: Sent) {
    forall kind, id :: Shown(before, kind, id) ==> Shown(after, kind, id)
  }

  predicate Distinct(ids: seq<nat>) {
    forall i, j :: 0 <= i < j < |ids| ==> ids[i] != ids[j]
  }

  /** No id is recorded twice under one kind. */
  predicate DistinctIds(sent: Sent) {
    forall kind :: kind in sent ==> Distinct(sent[kind])
  }

  /** Recording `(kind, id)` makes exactly that pair shown in addition. */
  lemma RecordedShown(sent: Sent, kind: Kind, id: nat, otherKind: Kind, otherId: nat)
    ensures Shown(Recorded(sent, kind, id), otherKind, otherId)
        <==> Shown(sent, otherKind, otherId) || (otherKind == kind && otherId == id)
  {
  }

  lemma RecordedGrows(sent: Sent, kind: Kind, id: nat)
    ensures Grows(sent, Recorded(sent, kind, id))
  {
    forall k, i | Shown(sent, k, i) ensures Shown(Recorded(sent, kind, id), k, i) {
      RecordedShown(sent, kind, id, k, i);
    }
  }

  /** Recording only ids not yet shown keeps every list free of repeats. */
  lemma RecordedKeepsDistinct(sent: Sent, kind: Kind, id: nat)
    requires DistinctIds(sent) && !Shown(sent, kind, id)
    ensures DistinctIds(Recorded(sent, kind, id))
  {
    var ids := if kind in sent then sent[kind] else [];
    assert forall i :: 0 <= i < |ids| ==> ids[i] != id;
  }

  /** The process-wide tracker object, updated in place. */
  class NotificationTracker {
    var sent: Sent

    ghost predicate Valid()
      reads this
    {
      DistinctIds(sent)
    }

    /** `NotificationTracker::new`: nothing shown yet. */
    constructor ()
      ensures Valid()
      ensures sent == map[]
    {
      sent := map[];
    }

    function HasShown(kind: Kind, id: nat): bool
      reads this
    {
      Shown(sent, kind, id)
    }

    /** Appends `id` to the list of `kind`, creating the list if absent. Its
        one caller records only ids not yet shown. */
    method Record(kind: Kind, id: nat)
      requires Valid() && !HasShown(kind, id)
      modifies this
      ensures Valid()
      ensures sent == Recorded(old(sent), kind, id)
    {
      RecordedKeepsDistinct(sent, kind, id);
      var ids := if kind in sent then sent[kind] else [];
      sent := sent[kind := ids + [id]];
    }
  }
}
