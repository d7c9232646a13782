/** Paging through the vault's bids, and the `activate_bid` selection, which is the one
    loop whose result depends on where the pages end. */
module Pagination {
  import opened Uint
  import opened Msg
  import opened Positions

  /** The `limit` of every `BidsByUser` query. */
  const PAGE_LIMIT: nat := 31

  /** What the queue answers for `start_after`: the vault's bids with a larger index, in
      order. (The queue is not part of this model; this is the behaviour assumed.) */
  function After(bids: seq<Bid>, startAfter: nat): (r: seq<Bid>)
    ensures |r| <= |bids|
  {
    if bids == [] then []
    else if bids[0].idx > startAfter then [bids[0]] + After(bids[1..], startAfter)
    else After(bids[1..], startAfter)
  }

  /** One `BidsByUser { start_after, limit }` page. */
  function QueryPage(bids: seq<Bid>, startAfter: nat, limit: nat): seq<Bid> {
    var a := After(bids, startAfter);
    if |a| <= limit then a else a[..limit]
  }

  ghost predicate IdxIncreasing(bids: seq<Bid>) {
    forall i, j :: 0 <= i < j < |bids| ==> bids[i].idx < bids[j].idx
  }

  /** When the indices up to position i are at most the cursor and the rest above it,
      the queue answers with the suffix from i. */
  lemma {:induction false} AfterFrom(bids: seq<Bid>, i: nat, startAfter: nat)
    requires i <= |bids|
    requires forall k :: 0 <= k < i ==> bids[k].idx <= startAfter
    requires forall k :: i <= k < |bids| ==> bids[k].idx > startAfter
    ensures After(bids, startAfter) == bids[i..]
  {
    if bids != [] {
      if i == 0 {
        AfterFrom(bids[1..], 0, startAfter);
        assert [bids[0]] + bids[1..] == bids;
      } else {
        AfterFrom(bids[1..], i - 1, startAfter);
        assert bids[1..][i - 1..] == bids[i..];
      }
    }
  }

  /** The paging loop of every valuation and scan (start at 0, ask for 31, stop on a
      short page, continue after the last index seen) visits every bid exactly once and
      in order, provided indices increase and start above 0. */
  method CollectPages(bids: seq<Bid>) returns (seen: seq<Bid>)
    requires IdxIncreasing(bids)
    requires forall k :: 0 <= k < |bids| ==> bids[k].idx > 0
    ensures seen == bids
  {
    var startAfter := 0;
    seen := [];
    AfterFrom(bids, 0, 0);
    while true
      invariant |seen| <= |bids| && seen == bids[..|seen|]
      invariant After(bids, startAfter) == bids[|seen|..]
      decreases |bids| - |seen|
    {
      var page := QueryPage(bids, startAfter, PAGE_LIMIT);
      var n := |seen|;
      assert page == bids[n..n + |page|];
      seen := seen + page;
      assert seen == bids[..n + |page|];
      if |page| < PAGE_LIMIT {
        assert n + |page| == |bids|;
        return;
      }
      startAfter := page[|page| - 1].idx;
      assert startAfter == bids[|seen| - 1].idx;
      AfterFrom(bids, |seen|, startAfter);
    }
  }

  /** The inner `for` of `activate_bid` over one page: a bid without `wait_end` is passed
      over, a due bid is selected, and the first bid still waiting ends the page — the
      `break` leaves only the inner loop, so the next page is scanned all the same. */
  function PageActivations(page: seq<Bid>, now: nat): seq<nat> {
    if page == [] then []
    else match page[0].waitEnd
      case None => PageActivations(page[1..], now)
      case Some(w) =>
        if w < now / NANOS_PER_SECOND then [page[0].idx] + PageActivations(page[1..], now) else []
  }

  /** The `bids_idx` that `activate_bid` collects, page by page. */
  function ActivationAsWritten(bids: seq<Bid>, now: nat): seq<nat>
    decreases |bids|
  {
    if |bids| < PAGE_LIMIT then PageActivations(bids, now)
    else PageActivations(bids[..PAGE_LIMIT], now) + ActivationAsWritten(bids[PAGE_LIMIT..], now)
  }

  /** The bids `activate_bid` is evidently meant to activate: every bid that is due
      (the same test as `query_activatable`), in order. */
  function DueBids(bids: seq<Bid>, now: nat): seq<nat> {
    if bids == [] then []
    else (if ActivationDue(bids[0], now) then [bids[0].idx] else []) + DueBids(bids[1..], now)
  }

  ghost predicate IsDueIdx(bids: seq<Bid>, x: nat, now: nat) {
    exists i :: 0 <= i < |bids| && bids[i].idx == x && ActivationDue(bids[i], now)
  }

  /** The corrected selection holds exactly the indices of the due bids. */
  lemma {:induction false} DueBidsExact(bids: seq<Bid>, x: nat, now: nat)
    ensures x in DueBids(bids, now) <==> IsDueIdx(bids, x, now)
  {
    if bids != [] {
      DueBidsExact(bids[1..], x, now);
      if IsDueIdx(bids[1..], x, now) {
        var i :| 0 <= i < |bids[1..]| && bids[1..][i].idx == x && ActivationDue(bids[1..][i], now);
        assert bids[i + 1] == bids[1..][i];
      }
      if IsDueIdx(bids, x, now) {
        var i :| 0 <= i < |bids| && bids[i].idx == x && ActivationDue(bids[i], now);
        if i > 0 { assert bids[1..][i - 1] == bids[i]; }
      }
    }
  }

  lemma {:induction false} PageActivationsSound(page: seq<Bid>, x: nat, now: nat)
    requires x in PageActivations(page, now)
    ensures IsDueIdx(page, x, now)
  {
    if page[0].waitEnd.Some? && page[0].waitEnd.value < now / NANOS_PER_SECOND && x == page[0].idx {
      assert ActivationDue(page[0], now);
    } else {
      PageActivationsSound(page[1..], x, now);
      var i :| 0 <= i < |page[1..]| && page[1..][i].idx == x && ActivationDue(page[1..][i], now);
      assert page[i + 1] == page[1..][i];
    }
  }

  /** What `activate_bid` selects is always due: it never activates a waiting bid. */
  lemma {:induction false} ActivationAsWrittenSound(bids: seq<Bid>, x: nat, now: nat)
    requires x in ActivationAsWritten(bids, now)
    ensures IsDueIdx(bids, x, now)
  {
    if |bids| < PAGE_LIMIT {
      PageActivationsSound(bids, x, now);
    } else if x in PageActivations(bids[..PAGE_LIMIT], now) {
      PageActivationsSound(bids[..PAGE_LIMIT], x, now);
      var i :| 0 <= i < PAGE_LIMIT && bids[..PAGE_LIMIT][i].idx == x && ActivationDue(bids[..PAGE_LIMIT][i], now);
      assert bids[i] == bids[..PAGE_LIMIT][i];
    } else {
      ActivationAsWrittenSound(bids[PAGE_LIMIT..], x, now);
      var i :| 0 <= i < |bids[PAGE_LIMIT..]| && bids[PAGE_LIMIT..][i].idx == x && ActivationDue(bids[PAGE_LIMIT..][i], now);
      assert bids[i + PAGE_LIMIT] == bids[PAGE_LIMIT..][i];
    }
  }

  /** The discrepancy: a waiting bid ahead of a due one on the same page hides it, so
      `activate_bid` sends an empty batch although `query_activatable` reports true. */
  lemma ActivationMissesDueBid()
    ensures var bids := [Bid(1, 10, 0, Some(100)), Bid(2, 10, 0, Some(0))];
            var now := 50 * NANOS_PER_SECOND;
            ActivationAsWritten(bids, now) == [] && DueBids(bids, now) == [2] &&
            ActivationDue(bids[1], now)
  {
    var bids := [Bid(1, 10, 0, Some(100)), Bid(2, 10, 0, Some(0))];
    var now := 50 * NANOS_PER_SECOND;
    assert now / NANOS_PER_SECOND == 50;
    assert !ActivationDue(bids[0], now) && ActivationDue(bids[1], now);
    assert bids[1..] == [bids[1]] && bids[1..][1..] == [];
    assert DueBids(bids[1..], now) == [2];
  }

  /** The inner `for` of `activate_bid` over one page. */
  method ScanPage(page: seq<Bid>, now: nat) returns (pageIdx: seq<nat>)
    ensures pageIdx == PageActivations(page, now)
  {
    pageIdx := [];
    var j := 0;
    while j < |page|
      invariant j <= |page|
      invariant pageIdx + PageActivations(page[j..], now) == PageActivations(page, now)
    {
      var item := page[j];
      if item.waitEnd.Some? {
        if item.waitEnd.value < now / NANOS_PER_SECOND {
          pageIdx := pageIdx + [item.idx];
        } else {
          break;
        }
      }
      assert page[j..][1..] == page[j + 1..];
      j := j + 1;
    }
  }

  /** A full page at `start` splits the remaining selection into that page's and the rest's. */
  lemma ActivationPageSplit(bids: seq<Bid>, start: nat, now: nat)
    requires start + PAGE_LIMIT <= |bids|
    ensures ActivationAsWritten(bids[start..], now) ==
            PageActivations(bids[start..start + PAGE_LIMIT], now) + ActivationAsWritten(bids[start + PAGE_LIMIT..], now)
  {
    assert bids[start..][..PAGE_LIMIT] == bids[start..start + PAGE_LIMIT];
    assert bids[start..][PAGE_LIMIT..] == bids[start + PAGE_LIMIT..];
  }

  /** The loops of `activate_bid` (src/contract.rs:259-285). */
  method SelectActivations(bids: seq<Bid>, now: nat) returns (bidsIdx: seq<nat>)
    ensures bidsIdx == ActivationAsWritten(bids, now)
  {
    bidsIdx := [];
    var start := 0;
    while true
      invariant start <= |bids|
      invariant bidsIdx + ActivationAsWritten(bids[start..], now) == ActivationAsWritten(bids, now)
      decreases |bids| - start
    {
      var page := if |bids| - start < PAGE_LIMIT then bids[start..] else bids[start..start + PAGE_LIMIT];
      var pageIdx := ScanPage(page, now);
      if |page| < PAGE_LIMIT {
        bidsIdx := bidsIdx + pageIdx;
        return;
      }
      ActivationPageSplit(bids, start, now);
      ghost var rest := ActivationAsWritten(bids[start + PAGE_LIMIT..], now);
      assert bidsIdx + (pageIdx + rest) == bidsIdx + pageIdx + rest;
      bidsIdx := bidsIdx + pageIdx;
      start := start + PAGE_LIMIT;
    }
  }
}
