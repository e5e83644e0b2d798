/**
 The toast list fed by `showNotification` events. Each published entry gets
 a fresh id and schedules its own removal; the user may dismiss it earlier.
 The wall clock is not modelled: the scheduled removal is an explicit
 `Expire` event, and the tray remembers which removals are still pending.
 */
module Notifications {
  import opened Seqs
  import opened Optional

  /** The `detail` of a `showNotification` event; `kind` is absent when the
      sender gave no `type`. */
  datatype Request = Request(message: string, kind: Option<string>)

  datatype Notification = Notification(id: string, message: string, kind: string)

  /** The displayed list and the ids whose five-second removal is still due,
      one entry per scheduled timer. */
  datatype Tray = Tray(items: seq<Notification>, timers: seq<string>)

  const DefaultKind: string := "info"

  const EmptyTray: Tray := Tray([], [])

  function ItemIds(items: seq<Notification>): (ids: set<string>)
    ensures forall n :: n in items ==> n.id in ids
    ensures forall id :: id in ids ==> exists n :: n in items && n.id == id
  {
    set n | n in items :: n.id
  }

  /** `prev.filter(n => n.id !== id)`. */
  function WithoutItem(items: seq<Notification>, id: string): (r: seq<Notification>)
    ensures forall n :: n in r <==> n in items && n.id != id
  {
    Filter((n: Notification) => n.id != id, items)
  }

  /** An id is fresh when no entry shows it and no timer for it is pending. */
  predicate Fresh(t: Tray, id: string) {
    id !in ItemIds(t.items) && id !in t.timers
  }

  /** `type = 'info'` in the destructuring: only a missing type defaults. */
  function KindOf(req: Request): (k: string)
    ensures req.kind.None? ==> k == DefaultKind
    ensures req.kind.Some? ==> k == req.kind.value
  {
    match req.kind
    case None => DefaultKind
    case Some(k) => k
  }

  /** `handleNotification`: append one entry and schedule its removal. */
  function Publish(t: Tray, req: Request, id: string): (r: Tray)
    requires Fresh(t, id)
    ensures |r.items| == |t.items| + 1 && r.items[..|t.items|] == t.items
    ensures r.items[|t.items|] == Notification(id, req.message, KindOf(req))
    ensures r.timers == t.timers + [id]
  {
    Tray(t.items + [Notification(id, req.message, KindOf(req))], t.timers + [id])
  }

  /** `removeNotification`: the close button. The pending timer stays. */
  function Dismiss(t: Tray, id: string): (r: Tray)
    ensures r.timers == t.timers
    ensures forall n :: n in r.items <==> n in t.items && n.id != id
  {
    Tray(WithoutItem(t.items, id), t.timers)
  }

  /** Removes the first occurrence of `x`. */
  function RemoveFirst(s: seq<string>, x: string): (r: seq<string>)
    requires x in s
    ensures |r| == |s| - 1
    ensures multiset(r) == multiset(s) - multiset{x}
  {
    assert s == [s[0]] + s[1..];
    if s[0] == x then s[1..] else [s[0]] + RemoveFirst(s[1..], x)
  }

  /** The scheduled removal for `id` fires: the same filter as dismissal,
      and the timer is spent. */
  function Expire(t: Tray, id: string): (r: Tray)
    requires id in t.timers
    ensures r.items == Dismiss(t, id).items
    ensures multiset(r.timers) == multiset(t.timers) - multiset{id}
  {
    Tray(WithoutItem(t.items, id), RemoveFirst(t.timers, id))
  }

  /** The tray's invariant: ids are distinct and every shown entry still has
      its removal pending, so nothing stays on screen for good. */
  ghost predicate Valid(t: Tray) {
    && (forall i, j :: 0 <= i < j < |t.items| ==> t.items[i].id != t.items[j].id)
    && (forall n :: n in t.items ==> n.id in t.timers)
  }

  lemma EmptyTrayValid()
    ensures Valid(EmptyTray)
  {
  }

  lemma PublishValid(t: Tray, req: Request, id: string)
    requires Valid(t) && Fresh(t, id)
    ensures Valid(Publish(t, req, id))
  {
    var r := Publish(t, req, id);
    forall i, j | 0 <= i < j < |r.items|
      ensures r.items[i].id != r.items[j].id
    {
      if j == |t.items| {
        assert r.items[i] in t.items;
      } else {
        assert r.items[i] == t.items[i] && r.items[j] == t.items[j];
      }
    }
  }

  lemma {:induction false} FilterKeepsDistinct(items: seq<Notification>, id: string)
    requires forall i, j :: 0 <= i < j < |items| ==> items[i].id != items[j].id
    ensures var r := WithoutItem(items, id);
      forall i, j :: 0 <= i < j < |r| ==> r[i].id != r[j].id
    decreases |items|
  {
    if items != [] {
      FilterKeepsDistinct(items[1..], id);
      var p := (n: Notification) => n.id != id;
      assert items == [items[0]] + items[1..];
      FilterAppend(p, [items[0]], items[1..]);
      FilterSingleton(p, items[0]);
      var tail := WithoutItem(items[1..], id);
      assert forall n :: n in tail ==> n.id != items[0].id;
    }
  }

  lemma DismissValid(t: Tray, id: string)
    requires Valid(t)
    ensures Valid(Dismiss(t, id))
  {
    FilterKeepsDistinct(t.items, id);
  }

  lemma ExpireValid(t: Tray, id: string)
    requires Valid(t) && id in t.timers
    ensures Valid(Expire(t, id))
  {
    var r := Expire(t, id);
    FilterKeepsDistinct(t.items, id);
    forall n | n in r.items
      ensures n.id in r.timers
    {
      assert n.id != id && n.id in t.timers;
      assert multiset(r.timers)[n.id] == multiset(t.timers)[n.id];
    }
  }

  /** Dismissal keeps the other entries in order: it distributes over
      concatenation, and a single entry goes exactly when its id matches. */
  lemma DismissKeepsOrder(a: seq<Notification>, b: seq<Notification>, id: string, n: Notification)
    ensures WithoutItem(a + b, id) == WithoutItem(a, id) + WithoutItem(b, id)
    ensures WithoutItem([n], id) == if n.id == id then [] else [n]
  {
    FilterAppend((m: Notification) => m.id != id, a, b);
    FilterSingleton((m: Notification) => m.id != id, n);
  }

  /** Dismissing an id nobody shows changes nothing. */
  lemma DismissAbsent(t: Tray, id: string)
    requires id !in ItemIds(t.items)
    ensures Dismiss(t, id) == t
  {
    FilterAll((n: Notification) => n.id != id, t.items);
  }

  lemma DismissIdempotent(t: Tray, id: string)
    ensures Dismiss(Dismiss(t, id), id) == Dismiss(t, id)
  {
    FilterIdempotent((n: Notification) => n.id != id, t.items);
  }

  /** The timer of an entry the user already closed finds nothing to remove. */
  lemma ExpireAfterDismiss(t: Tray, id: string)
    requires id in t.timers
    ensures Expire(Dismiss(t, id), id).items == Dismiss(t, id).items
  {
    DismissIdempotent(t, id);
  }

  /** Expiry removes only its own entry: every other entry stays. */
  lemma ExpireRemovesOnlyOwn(t: Tray, id: string, n: Notification)
    requires id in t.timers && n in t.items && n.id != id
    ensures n in Expire(t, id).items
  {
  }

  /** Publishing with a fresh id and letting that entry expire restores the
      tray. */
  lemma PublishThenExpire(t: Tray, req: Request, id: string)
    requires Fresh(t, id)
    ensures Expire(Publish(t, req, id), id) == t
  {
    var p := (n: Notification) => n.id != id;
    var n := Notification(id, req.message, KindOf(req));
    FilterAppend(p, t.items, [n]);
    FilterSingleton(p, n);
    DismissAbsent(t, id);
    RemoveFirstLast(t.timers, id);
  }

  lemma {:induction false} RemoveFirstLast(s: seq<string>, x: string)
    requires x !in s
    ensures RemoveFirst(s + [x], x) == s
    decreases |s|
  {
    if s != [] {
      assert (s + [x])[1..] == s[1..] + [x];
      RemoveFirstLast(s[1..], x);
      assert s == [s[0]] + s[1..];
    }
  }

  // ------------------------------------------------------------ rendering

  datatype Glyph = CheckCircle | AlertCircle | InfoGlyph

  datatype Icon = Icon(glyph: Glyph, color: string)

  /** The kinds with a look of their own. */
  predicate KnownKind(kind: string) {
    kind == "success" || kind == "error" || kind == "warning"
  }

  /** `getIcon`: a tick for success, an alert for error and warning, the
      info glyph in blue for every other kind. */
  function IconFor(kind: string): (ic: Icon)
    ensures ic.glyph == CheckCircle <==> kind == "success"
    ensures ic.glyph == InfoGlyph <==> !KnownKind(kind)
    ensures !KnownKind(kind) <==> ic == Icon(InfoGlyph, "text-blue-600")
  {
    if kind == "success" then Icon(CheckCircle, "text-green-600")
    else if kind == "error" then Icon(AlertCircle, "text-red-600")
    else if kind == "warning" then Icon(AlertCircle, "text-yellow-600")
    else Icon(InfoGlyph, "text-blue-600")
  }

  const SuccessStyles: string := "bg-green-50 border-green-200 text-green-800"
  const ErrorStyles: string := "bg-red-50 border-red-200 text-red-800"
  const WarningStyles: string := "bg-yellow-50 border-yellow-200 text-yellow-800"
  const InfoStyles: string := "bg-blue-50 border-blue-200 text-blue-800"

  /** `getStyles`: the class string read back by `StyleKind` gives the kind
      for the three known kinds and `info` for every other string, so the
      known kinds look pairwise different and the rest look like `info`. */
  function StylesFor(kind: string): (cls: string)
    ensures StyleKind(cls) == if KnownKind(kind) then kind else DefaultKind
    ensures !KnownKind(kind) ==> cls == InfoStyles
  {
    StylesDistinct();
    if kind == "success" then SuccessStyles
    else if kind == "error" then ErrorStyles
    else if kind == "warning" then WarningStyles
    else InfoStyles
  }

  /** Which kind a card's class string belongs to (an inverse of
      `StylesFor`). */
  function StyleKind(cls: string): string {
    if cls == SuccessStyles then "success"
    else if cls == ErrorStyles then "error"
    else if cls == WarningStyles then "warning"
    else DefaultKind
  }

  lemma StylesDistinct()
    ensures ErrorStyles != SuccessStyles
    ensures WarningStyles != SuccessStyles && WarningStyles != ErrorStyles
    ensures InfoStyles != SuccessStyles && InfoStyles != ErrorStyles && InfoStyles != WarningStyles
  {
    assert SuccessStyles[3] == 'g' && ErrorStyles[3] == 'r';
    assert WarningStyles[3] == 'y' && InfoStyles[3] == 'b';
  }

  /** The card drawn for one entry. */
  datatype Card = Card(key: string, className: string, icon: Icon, message: string)

  /** The component's output: nothing for an empty list, otherwise one card
      per entry, in list order. */
  function Render(t: Tray): (r: Option<seq<Card>>)
    ensures r.None? <==> t.items == []
    ensures r.Some? ==> |r.value| == |t.items| && forall i :: 0 <= i < |t.items| ==>
      var n := t.items[i];
      r.value[i] == Card(n.id, StylesFor(n.kind), IconFor(n.kind), n.message)
  {
    if |t.items| == 0 then None
    else Some(seq(|t.items|, i requires 0 <= i < |t.items| =>
      Card(t.items[i].id, StylesFor(t.items[i].kind), IconFor(t.items[i].kind), t.items[i].message)))
  }

  /** A published entry is on screen until something removes it. */
  lemma PublishedIsRendered(t: Tray, req: Request, id: string)
    requires Fresh(t, id)
    ensures var r := Render(Publish(t, req, id));
      r.Some? && r.value[|t.items|].message == req.message
      && r.value[|t.items|].className == StylesFor(KindOf(req))
  {
  }
}
