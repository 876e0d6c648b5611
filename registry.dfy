/**
 * The notification registry: the workspace's ordered list of active
 * `(kind, id, handle)` entries and the pure operations over it that the
 * workspace uses (the duplicate test of `show_notification` and the `retain`
 * of `dismiss_notification_internal`).
 */
module Registry {

  import opened Wrappers

  /** The kind of a notification. The source uses the Rust `TypeId` of the
      notification's view type; here it is an explicit token. `MessageKind`
      is the reserved kind of the generic message notification, shared by
      toasts and errors. */
  datatype Kind = MessageKind | ViewKind(typeName: string)

  /** What a builder produces: the notification's view.
      `MessageNotification` is the default message widget (text, optional
      click label, optional callback token); `CustomNotification` stands for a
      view of any other notification type, named by `typeName`. */
  datatype View =
    | MessageNotification(message: string, clickMessage: Option<string>, onClick: Option<nat>)
    | CustomNotification(typeName: string, state: nat)

  /** The kind of a view, as `TypeId::of::<V>()` is the kind of a `View<V>`. */
  function KindOf(v: View): Kind {
    match v
    case MessageNotification(_, _, _) => MessageKind
    case CustomNotification(name, _) => ViewKind(name)
  }

  /** One active notification: its kind, the caller's instance id and the
      handle of its view. */
  datatype Entry = Entry(kind: Kind, id: nat, handle: nat)

  predicate Matches(e: Entry, kind: Kind, id: nat) {
    e.kind == kind && e.id == id
  }

  /** Some entry of `s` has the key `(kind, id)`. */
  predicate Contains(s: seq<Entry>, kind: Kind, id: nat) {
    exists i :: 0 <= i < |s| && Matches(s[i], kind, id)
  }

  /** No two entries of `s` share a `(kind, id)` key. */
  predicate UniqueKeys(s: seq<Entry>) {
    forall i, j :: 0 <= i < |s| && 0 <= j < |s| && Matches(s[i], s[j].kind, s[j].id) ==> i == j
  }

  /** The number of entries of `s` with key `(kind, id)`. */
  function MatchCount(s: seq<Entry>, kind: Kind, id: nat): nat {
    if s == [] then 0
    else MatchCount(s[..|s| - 1], kind, id) + (if Matches(s[|s| - 1], kind, id) then 1 else 0)
  }

  /** `retain` with the closure of `dismiss_notification_internal`: the entries
      of `s` whose key is not `(kind, id)`, in their original order. */
  function Retain(s: seq<Entry>, kind: Kind, id: nat): (r: seq<Entry>)
    ensures |r| + MatchCount(s, kind, id) == |s|
  {
    if s == [] then []
    else
      var last := s[|s| - 1];
      assert s == s[..|s| - 1] + [last];
      Retain(s[..|s| - 1], kind, id) + (if Matches(last, kind, id) then [] else [last])
  }

  /** One more step of retain over a prefix: the next entry is dropped and
      counted, or kept. */
  lemma RetainStep(s: seq<Entry>, i: nat, kind: Kind, id: nat)
    requires i < |s|
    ensures Retain(s[..i + 1], kind, id)
      == Retain(s[..i], kind, id) + (if Matches(s[i], kind, id) then [] else [s[i]])
    ensures MatchCount(s[..i + 1], kind, id)
      == MatchCount(s[..i], kind, id) + (if Matches(s[i], kind, id) then 1 else 0)
  {
    assert s[..i + 1][..i] == s[..i];
  }

  /** `Vec::retain` with the closure of `dismiss_notification_internal`,
      visiting the entries in order: the kept entries, and how many times the
      closure dropped one (and so called `cx.notify()`). */
  method RetainEntries(entries: seq<Entry>, kind: Kind, id: nat) returns (kept: seq<Entry>, removed: nat)
    ensures kept == Retain(entries, kind, id)
    ensures removed == MatchCount(entries, kind, id)
  {
    kept, removed := [], 0;
    var i := 0;
    while i < |entries|
      invariant i <= |entries|
      invariant kept == Retain(entries[..i], kind, id)
      invariant removed == MatchCount(entries[..i], kind, id)
    {
      RetainStep(entries, i, kind, id);
      if Matches(entries[i], kind, id) {
        removed := removed + 1;
      } else {
        kept := kept + [entries[i]];
      }
      i := i + 1;
    }
    assert entries[..i] == entries;
  }

  /** An entry survives retain exactly when it was there and does not match. */
  lemma {:induction false} RetainMembers(s: seq<Entry>, kind: Kind, id: nat)
    ensures forall e :: e in Retain(s, kind, id) <==> e in s && !Matches(e, kind, id)
  {
    if s != [] {
      var p := s[..|s| - 1];
      RetainMembers(p, kind, id);
      assert s == p + [s[|s| - 1]];
    }
  }

  lemma {:induction false} MatchCountZero(s: seq<Entry>, kind: Kind, id: nat)
    ensures MatchCount(s, kind, id) == 0 <==> !Contains(s, kind, id)
  {
    if s != [] {
      var p := s[..|s| - 1];
      MatchCountZero(p, kind, id);
      PrefixContains(s, kind, id);
    }
  }

  /** A non-empty sequence contains a key exactly when its prefix or its last
      entry does. */
  lemma PrefixContains(s: seq<Entry>, kind: Kind, id: nat)
    requires s != []
    ensures Contains(s, kind, id) <==> Contains(s[..|s| - 1], kind, id) || Matches(s[|s| - 1], kind, id)
  {
    var p := s[..|s| - 1];
    assert forall i :: 0 <= i < |p| ==> p[i] == s[i];
  }

  /** A prefix of a sequence with unique keys has unique keys. */
  lemma PrefixUnique(s: seq<Entry>, n: nat)
    requires UniqueKeys(s) && n <= |s|
    ensures UniqueKeys(s[..n])
  {
    var p := s[..n];
    assert forall i :: 0 <= i < |p| ==> p[i] == s[i];
  }

  /** In a sequence with unique keys, the key of entry `i` occurs nowhere
      else: not before it and not after it. */
  lemma KeyOnlyAt(s: seq<Entry>, i: nat)
    requires UniqueKeys(s) && i < |s|
    ensures !Contains(s[..i], s[i].kind, s[i].id)
    ensures !Contains(s[i + 1..], s[i].kind, s[i].id)
  {
    var a, b := s[..i], s[i + 1..];
    forall j | 0 <= j < |a| ensures !Matches(a[j], s[i].kind, s[i].id) {
      assert a[j] == s[j];
    }
    forall j | 0 <= j < |b| ensures !Matches(b[j], s[i].kind, s[i].id) {
      assert b[j] == s[i + 1 + j];
    }
  }

  /** With unique keys at most one entry is removed, so the retain closure
      raises notify at most once. */
  lemma {:induction false} MatchCountUnique(s: seq<Entry>, kind: Kind, id: nat)
    requires UniqueKeys(s)
    ensures MatchCount(s, kind, id) == if Contains(s, kind, id) then 1 else 0
  {
    MatchCountZero(s, kind, id);
    if s != [] {
      var p := s[..|s| - 1];
      PrefixUnique(s, |s| - 1);
      MatchCountUnique(p, kind, id);
      PrefixContains(s, kind, id);
      KeyOnlyAt(s, |s| - 1);
    }
  }

  /** Retain distributes over concatenation: removal acts on each part on its own. */
  lemma {:induction false} RetainConcat(a: seq<Entry>, b: seq<Entry>, kind: Kind, id: nat)
    ensures Retain(a + b, kind, id) == Retain(a, kind, id) + Retain(b, kind, id)
  {
    if b == [] {
      assert a + b == a;
    } else {
      var c, q, last := a + b, b[..|b| - 1], b[|b| - 1];
      var tail := if Matches(last, kind, id) then [] else [last];
      assert c[..|c| - 1] == a + q;
      assert c[|c| - 1] == last;
      assert Retain(c, kind, id) == Retain(a + q, kind, id) + tail;
      assert Retain(b, kind, id) == Retain(q, kind, id) + tail;
      RetainConcat(a, q, kind, id);
    }
  }

  /** With no entry to remove, retain keeps the sequence as it is. */
  lemma {:induction false} RetainNoMatch(s: seq<Entry>, kind: Kind, id: nat)
    requires !Contains(s, kind, id)
    ensures Retain(s, kind, id) == s
  {
    if s != [] {
      var p := s[..|s| - 1];
      PrefixContains(s, kind, id);
      RetainNoMatch(p, kind, id);
      assert s == p + [s[|s| - 1]];
    }
  }

  /** Appending an entry whose key is absent keeps the keys unique. */
  lemma AppendKeepsUnique(s: seq<Entry>, e: Entry)
    requires UniqueKeys(s) && !Contains(s, e.kind, e.id)
    ensures UniqueKeys(s + [e])
  {
    var t := s + [e];
    forall i | 0 <= i < |s| ensures t[i] == s[i] && !Matches(t[i], e.kind, e.id) { }
    forall i, j | 0 <= i < |t| && 0 <= j < |t| && Matches(t[i], t[j].kind, t[j].id)
      ensures i == j
    {
    }
  }

  /** Removal keeps the keys unique. */
  lemma {:induction false} RetainKeepsUnique(s: seq<Entry>, kind: Kind, id: nat)
    requires UniqueKeys(s)
    ensures UniqueKeys(Retain(s, kind, id))
  {
    if s != [] {
      var p, last := s[..|s| - 1], s[|s| - 1];
      PrefixUnique(s, |s| - 1);
      RetainKeepsUnique(p, kind, id);
      var rp := Retain(p, kind, id);
      if !Matches(last, kind, id) {
        RetainMembers(p, kind, id);
        KeyOnlyAt(s, |s| - 1);
        forall j | 0 <= j < |rp| ensures !Matches(rp[j], last.kind, last.id) {
          assert rp[j] in p;
          var k :| 0 <= k < |p| && p[k] == rp[j];
          assert !Matches(p[k], last.kind, last.id);
        }
        AppendKeepsUnique(rp, last);
      }
    }
  }

  /** Dismissing a key that occurs once, at the junction of `a` and `b`,
      leaves `a + b`. */
  lemma RetainDropsSingle(a: seq<Entry>, e: Entry, b: seq<Entry>)
    requires !Contains(a, e.kind, e.id) && !Contains(b, e.kind, e.id)
    ensures Retain(a + [e] + b, e.kind, e.id) == a + b
  {
    RetainNoMatch(a, e.kind, e.id);
    RetainNoMatch(b, e.kind, e.id);
    assert Retain([e], e.kind, e.id) == [] by {
      assert [e][..0] == [];
    }
    RetainConcat(a, [e], e.kind, e.id);
    RetainConcat(a + [e], b, e.kind, e.id);
  }

  /** Under unique keys, dismissing the key of entry `i` removes exactly that
      entry and leaves every other entry in its original order. */
  lemma RetainRemovesAt(s: seq<Entry>, i: nat)
    requires UniqueKeys(s) && i < |s|
    ensures Retain(s, s[i].kind, s[i].id) == s[..i] + s[i + 1..]
  {
    KeyOnlyAt(s, i);
    assert s == s[..i] + [s[i]] + s[i + 1..];
    RetainDropsSingle(s[..i], s[i], s[i + 1..]);
  }
}
