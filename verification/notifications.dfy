/** The merchant's notification panel: which fetched notifications are recent
    enough to show, and the unread counter on the badge with the panel's
    "expanded" flag. */
module Notifications {
  import opened JsText

  const TtlDays := 7
  const DayMs := 24 * 60 * 60 * 1000

  /** A fetched notification; `createdAt` is `None` when its timestamp does not
      parse to a finite time. */
  datatype Notification = Notification(id: int, createdAt: Option<int>)

  predicate IsRecent(n: Notification, now: int)
  {
    n.createdAt.Some? && n.createdAt.value >= now - TtlDays * DayMs
  }

  /** The notifications kept after loading: those with a valid timestamp no older
      than seven days before `now`, in the server's order. */
  function RecentNotifications(items: seq<Notification>, now: int): (r: seq<Notification>)
    ensures |r| <= |items|
    ensures forall k :: 0 <= k < |r| ==> r[k] in items && IsRecent(r[k], now)
    ensures forall i :: 0 <= i < |items| && IsRecent(items[i], now) ==> items[i] in r
  {
    if items == [] then []
    else if IsRecent(items[0], now) then [items[0]] + RecentNotifications(items[1..], now)
    else RecentNotifications(items[1..], now)
  }

  /** The filter works notification by notification: it distributes over
      concatenation, so the kept ones stay in the server's order. */
  lemma {:induction false} RecentConcat(a: seq<Notification>, b: seq<Notification>, now: int)
    ensures RecentNotifications(a + b, now) == RecentNotifications(a, now) + RecentNotifications(b, now)
  {
    if a == [] {
      assert a + b == b;
    } else {
      assert (a + b)[1..] == a[1..] + b;
      RecentConcat(a[1..], b, now);
    }
  }

  /** A later `now` never shows more notifications. */
  lemma {:induction false} RecentShrinksOverTime(items: seq<Notification>, now: int, later: int)
    requires now <= later
    ensures |RecentNotifications(items, later)| <= |RecentNotifications(items, now)|
  {
    if items != [] {
      RecentShrinksOverTime(items[1..], now, later);
    }
  }

  /** The unread count after a load: the server's `unreadCount` when present,
      otherwise the number of kept notifications, never below zero. */
  function UnreadAfterLoad(unreadCount: Option<int>, kept: nat): (c: nat)
    ensures unreadCount.None? ==> c == kept
    ensures unreadCount.Some? && unreadCount.value >= 0 ==> c == unreadCount.value
    ensures unreadCount.Some? && unreadCount.value < 0 ==> c == 0
  {
    var n := match unreadCount case None => kept case Some(u) => u;
    if n < 0 then 0 else n
  }

  /** The badge state. */
  class Badge {
    var count: nat
    var expanded: bool

    constructor ()
      ensures count == 0 && !expanded
    {
      count := 0;
      expanded := false;
    }

    /** `loadMerchantNotifications` after a successful fetch of `items` at time
        `now`: the count falls back to the number of recent notifications, and the
        panel opens when the unread count grew. */
    method Loaded(unreadCount: Option<int>, items: seq<Notification>, now: int)
      modifies this
      ensures count == UnreadAfterLoad(unreadCount, |RecentNotifications(items, now)|)
      ensures expanded == (old(expanded) || count > old(count))
    {
      var next := UnreadAfterLoad(unreadCount, |RecentNotifications(items, now)|);
      if next > count {
        expanded := true;
      }
      count := next;
    }

    /** The development-only "Simula" button: one more unread notification. */
    method Simulated()
      modifies this
      ensures count == old(count) + 1 && expanded
    {
      count := count + 1;
      expanded := true;
    }

    /** Opening an unread notification that the server marked read. */
    method MarkedRead()
      modifies this
      ensures count == if old(count) > 0 then old(count) - 1 else 0
      ensures expanded == old(expanded)
    {
      count := if count - 1 > 0 then count - 1 else 0;
    }
  }
}
