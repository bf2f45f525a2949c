/** Reservations as the client keeps them: the merchant's search over received
    reservations, and the customer's booking list, which grows at the front when
    an offer is booked and is re-fetched and merged with its local metadata. */
module Reservations {
  import opened JsText

  // ---------------------------------------------------------------- merchant search

  /** The parts of a received reservation the search looks at; `userFullName`
      is `None` when the user or the name is missing. */
  datatype ReceivedReservation = ReceivedReservation(id: int, userFullName: Option<string>)

  /** The normalised query: trimmed, then lower-cased. */
  function NormalizeQuery(query: string): string
  {
    Lower(Trim(query))
  }

  /** The filter predicate for an already normalised query `q`: an empty query
      matches everything, otherwise the id's digits or the lower-cased name must
      contain `q`. */
  predicate MatchesQuery(r: ReceivedReservation, q: string)
  {
    var name := match r.userFullName case None => "" case Some(n) => n;
    q == "" || Includes(IntToString(r.id), q) || Includes(Lower(name), q)
  }

  function FilterMatching(rs: seq<ReceivedReservation>, q: string): (r: seq<ReceivedReservation>)
    ensures |r| <= |rs|
    ensures forall k :: 0 <= k < |r| ==> r[k] in rs && MatchesQuery(r[k], q)
    ensures forall i :: 0 <= i < |rs| && MatchesQuery(rs[i], q) ==> rs[i] in r
  {
    if rs == [] then []
    else if MatchesQuery(rs[0], q) then [rs[0]] + FilterMatching(rs[1..], q)
    else FilterMatching(rs[1..], q)
  }

  /** The filter works reservation by reservation: it distributes over
      concatenation, so what it keeps stays in order, each as often as before. */
  lemma {:induction false} FilterMatchingConcat(a: seq<ReceivedReservation>, b: seq<ReceivedReservation>, q: string)
    ensures FilterMatching(a + b, q) == FilterMatching(a, q) + FilterMatching(b, q)
  {
    if a == [] {
      assert a + b == b;
    } else {
      assert (a + b)[1..] == a[1..] + b;
      FilterMatchingConcat(a[1..], b, q);
    }
  }

  /** The list shown under the search box. */
  function SearchReservations(rs: seq<ReceivedReservation>, query: string): seq<ReceivedReservation>
  {
    FilterMatching(rs, NormalizeQuery(query))
  }

  /** Filtering keeps every element when every element matches. */
  lemma {:induction false} FilterAllMatching(rs: seq<ReceivedReservation>, q: string)
    requires forall i :: 0 <= i < |rs| ==> MatchesQuery(rs[i], q)
    ensures FilterMatching(rs, q) == rs
  {
    if rs != [] {
      FilterAllMatching(rs[1..], q);
    }
  }

  /** A blank query (only white space) shows every reservation, in order. */
  lemma BlankQueryShowsAll(rs: seq<ReceivedReservation>, query: string)
    requires AllSpace(query)
    ensures SearchReservations(rs, query) == rs
  {
    TrimEmptyIffBlank(query);
    FilterAllMatching(rs, NormalizeQuery(query));
  }

  /** Searching again with the same query changes nothing. */
  lemma SearchIdempotent(rs: seq<ReceivedReservation>, query: string)
    ensures SearchReservations(SearchReservations(rs, query), query) == SearchReservations(rs, query)
  {
    var q := NormalizeQuery(query);
    FilterAllMatching(FilterMatching(rs, q), q);
  }

  /** A decimal rendering has no white space and no upper-case letter, so it
      survives the query normalisation. */
  lemma NormalizeIdString(id: int)
    ensures NormalizeQuery(IntToString(id)) == IntToString(id)
  {
    IntToStringChars(id);
    NormalizeSignedDigits(IntToString(id));
  }

  lemma NormalizeSignedDigits(s: string)
    requires forall i :: 0 <= i < |s| ==> s[i] == '-' || '0' <= s[i] <= '9'
    ensures NormalizeQuery(s) == s
  {
    if s != [] {
      assert !IsJsSpace(s[0]) by { assert s[0] == '-' || '0' <= s[0] <= '9'; }
      assert !IsJsSpace(s[|s| - 1]) by { assert s[|s| - 1] == '-' || '0' <= s[|s| - 1] <= '9'; }
    }
    calc {
      NormalizeQuery(s);
      Lower(Trim(s));
      { TrimKeepsUnpadded(s); }
      Lower(s);
      { LowerKeepsNonLetters(s); }
      s;
    }
  }

  lemma IntToStringChars(id: int)
    ensures forall i :: 0 <= i < |IntToString(id)| ==>
              IntToString(id)[i] == '-' || '0' <= IntToString(id)[i] <= '9'
  {
    if id < 0 {
      var d := NatToString(-id);
      assert IntToString(id) == "-" + d;
      assert forall i :: 1 <= i < |IntToString(id)| ==> IntToString(id)[i] == d[i - 1];
    }
  }

  /** Typing a reservation's id finds it. */
  lemma SearchById(rs: seq<ReceivedReservation>, i: nat)
    requires i < |rs|
    ensures rs[i] in SearchReservations(rs, IntToString(rs[i].id))
  {
    NormalizeIdString(rs[i].id);
    assert IntToString(rs[i].id) <= IntToString(rs[i].id);
  }

  // ---------------------------------------------------------------- bookings

  /** A reservation as the server returns it. The fields other than the id are
      carried through unchanged and stand here for the whole record. */
  datatype Reservation = Reservation(id: int, depositStatus: string, partySize: int)

  /** The metadata the client adds from the offer it booked (`?? null` applied). */
  datatype Meta = Meta(offerTitle: Option<string>, merchantName: Option<string>, merchantCity: Option<string>)

  const NoMeta := Meta(None, None, None)

  /** `BookingView`: the reservation overlaid with its metadata. */
  datatype Booking = Booking(reservation: Reservation, meta: Meta)

  /** `metaById.get(id)`: the map is built from the bookings in order, so the last
      booking with that id wins. */
  function MetaById(bs: seq<Booking>, id: int): (m: Option<Meta>)
    ensures m.None? <==> forall i :: 0 <= i < |bs| ==> bs[i].reservation.id != id
    ensures m.Some? ==> exists i :: && 0 <= i < |bs| && bs[i].reservation.id == id && bs[i].meta == m.value
                                    && forall j :: i < j < |bs| ==> bs[j].reservation.id != id
  {
    if bs == [] then None
    else if bs[|bs| - 1].reservation.id == id then Some(bs[|bs| - 1].meta)
    else
      var p := bs[..|bs| - 1];
      var m := MetaById(p, id);
      assert m.Some? ==> exists i :: && 0 <= i < |bs| && bs[i].reservation.id == id && bs[i].meta == m.value
                                    && forall j :: i < j < |bs| ==> bs[j].reservation.id != id
      by {
        if m.Some? {
          var i :| && 0 <= i < |p| && p[i].reservation.id == id && p[i].meta == m.value
                   && forall j :: i < j < |p| ==> p[j].reservation.id != id;
          assert bs[i] == p[i];
          forall j | i < j < |bs| ensures bs[j].reservation.id != id {
            if j < |p| { assert bs[j] == p[j]; }
          }
        }
      }
      m
  }

  /** With unique ids the lookup finds that booking's own metadata. */
  lemma {:induction false} MetaByIdUnique(bs: seq<Booking>, i: nat)
    requires i < |bs|
    requires forall a, b :: 0 <= a < b < |bs| ==> bs[a].reservation.id != bs[b].reservation.id
    ensures MetaById(bs, bs[i].reservation.id) == Some(bs[i].meta)
  {
    if i < |bs| - 1 {
      MetaByIdUnique(bs[..|bs| - 1], i);
    }
  }

  /** `results.filter(Boolean)`: the fetches that succeeded, in request order. */
  function Fetched(results: seq<Option<Reservation>>): (r: seq<Reservation>)
    ensures |r| <= |results|
    ensures forall k :: 0 <= k < |r| ==> Some(r[k]) in results
    ensures forall i :: 0 <= i < |results| && results[i].Some? ==> results[i].value in r
  {
    if results == [] then []
    else if results[0].Some? then [results[0].value] + Fetched(results[1..])
    else Fetched(results[1..])
  }

  /** Successful fetches are kept fetch by fetch: the filter distributes over
      concatenation, so their order is the request order. */
  lemma {:induction false} FetchedConcat(a: seq<Option<Reservation>>, b: seq<Option<Reservation>>)
    ensures Fetched(a + b) == Fetched(a) + Fetched(b)
  {
    if a == [] {
      assert a + b == b;
    } else {
      assert (a + b)[1..] == a[1..] + b;
      FetchedConcat(a[1..], b);
    }
  }

  /** The merged list of `refreshBookings`: each successfully fetched reservation,
      in order, overlaid with the metadata the old list held for its id. */
  function Merged(bs: seq<Booking>, results: seq<Option<Reservation>>): (r: seq<Booking>)
    ensures |r| == |Fetched(results)|
    ensures forall k :: 0 <= k < |r| ==> r[k].reservation == Fetched(results)[k]
  {
    var fetched := Fetched(results);
    seq(|fetched|, k requires 0 <= k < |fetched| =>
      var m := MetaById(bs, fetched[k].id);
      Booking(fetched[k], if m.Some? then m.value else NoMeta))
  }

  /** When every fetch succeeds, nothing is dropped and the order is kept. */
  lemma {:induction false} FetchedAllSome(results: seq<Option<Reservation>>)
    requires forall i :: 0 <= i < |results| ==> results[i].Some?
    ensures |Fetched(results)| == |results|
    ensures forall i :: 0 <= i < |results| ==> Fetched(results)[i] == results[i].value
  {
    if results != [] {
      FetchedAllSome(results[1..]);
    }
  }

  /** A refresh in which every reservation is fetched again keeps each booking's
      position and metadata and takes the server's new data. */
  lemma RefreshKeepsMetadata(bs: seq<Booking>, refetched: seq<Reservation>)
    requires |refetched| == |bs|
    requires forall i :: 0 <= i < |bs| ==> refetched[i].id == bs[i].reservation.id
    requires forall a, b :: 0 <= a < b < |bs| ==> bs[a].reservation.id != bs[b].reservation.id
    ensures Merged(bs, seq(|refetched|, i requires 0 <= i < |refetched| => Some(refetched[i])))
            == seq(|bs|, i requires 0 <= i < |bs| => Booking(refetched[i], bs[i].meta))
  {
    var results := seq(|refetched|, i requires 0 <= i < |refetched| => Some(refetched[i]));
    FetchedAllSome(results);
    forall i | 0 <= i < |bs| ensures MetaById(bs, refetched[i].id) == Some(bs[i].meta) {
      MetaByIdUnique(bs, i);
    }
  }

  /** Whatever else failed, a reservation re-fetched for booking `i` comes back
      carrying booking `i`'s metadata (ids being unique). */
  lemma MergedOverlaysMeta(bs: seq<Booking>, results: seq<Option<Reservation>>, i: nat, x: Reservation)
    requires i < |bs| && i < |results|
    requires forall a, b :: 0 <= a < b < |bs| ==> bs[a].reservation.id != bs[b].reservation.id
    requires results[i] == Some(x) && x.id == bs[i].reservation.id
    ensures Booking(x, bs[i].meta) in Merged(bs, results)
  {
    var f := Fetched(results);
    assert x in f;
    var k :| 0 <= k < |f| && f[k] == x;
    MetaByIdUnique(bs, i);
    assert Merged(bs, results)[k] == Booking(x, bs[i].meta);
  }

  /** A failed fetch drops that booking from the list. */
  lemma FailedFetchDropped(bs: seq<Booking>, results: seq<Option<Reservation>>)
    requires exists i :: 0 <= i < |results| && results[i].None?
    ensures |Merged(bs, results)| < |results|
  {
    FetchedShorter(results);
  }

  lemma {:induction false} FetchedShorter(results: seq<Option<Reservation>>)
    requires exists i :: 0 <= i < |results| && results[i].None?
    ensures |Fetched(results)| < |results|
  {
    if results[0].Some? {
      var i :| 0 <= i < |results| && results[i].None?;
      assert results[1..][i - 1].None?;
      FetchedShorter(results[1..]);
    }
  }

  /** The `bookings` state. */
  class BookingList {
    var items: seq<Booking>

    constructor ()
      ensures items == []
    {
      items := [];
    }

    /** A new booking is shown first. */
    method Prepend(created: Reservation, meta: Meta)
      modifies this
      ensures items == [Booking(created, meta)] + old(items)
    {
      items := [Booking(created, meta)] + items;
    }

    /** `refreshBookings`, given the outcome of re-fetching each booking's id in
        order (`None` for a fetch that failed or returned nothing). */
    method Refresh(results: seq<Option<Reservation>>)
      requires |results| == |items|
      modifies this
      ensures items == Merged(old(items), results)
    {
      if |items| == 0 {
        assert results == [];
        return;
      }
      items := Merged(items, results);
    }

    /** Activating with an access code starts a fresh, empty list. */
    method Clear()
      modifies this
      ensures items == []
    {
      items := [];
    }
  }
}
