/** The shortfall path of `withdraw_ust` (src/contract.rs:389-433): when the directly
    held `uusd` does not cover a withdrawal, the missing amount is retracted from the
    vault's bids, in the order the queue returns them. */
module Retraction {
  import opened Msg
  import opened Positions

  /** The retraction messages to the queue and the shortfall still not covered. */
  datatype Plan = Plan(messages: seq<Instruction>, left: nat)

  function Retract(queue: Addr, idx: nat, amount: Option<nat>): Instruction {
    WasmExecute(queue, RetractBid(idx, amount), 0)
  }

  /** The scan from a remaining shortfall: bids holding nothing are skipped, a bid holding
      less than the remainder is retracted whole, and the first bid holding at least the
      remainder is retracted by exactly the remainder, which ends the scan. */
  function PlanRetraction(queue: Addr, bids: seq<Bid>, remaining: nat): Plan
    decreases |bids|
  {
    if bids == [] then Plan([], remaining)
    else if bids[0].amount == 0 then PlanRetraction(queue, bids[1..], remaining)
    else if bids[0].amount < remaining then
      var rest := PlanRetraction(queue, bids[1..], remaining - bids[0].amount);
      Plan([Retract(queue, bids[0].idx, None)] + rest.messages, rest.left)
    else Plan([Retract(queue, bids[0].idx, Some(remaining))], 0)
  }

  /** One whole retraction per bid that holds something, in order. */
  function FullRetractions(queue: Addr, bids: seq<Bid>): seq<Instruction> {
    if bids == [] then []
    else (if bids[0].amount == 0 then [] else [Retract(queue, bids[0].idx, None)]) +
         FullRetractions(queue, bids[1..])
  }

  lemma PrefixStep(bids: seq<Bid>, j: nat)
    requires 0 <= j < |bids|
    ensures bids[..j + 1][1..] == bids[1..][..j]
  {
  }

  /** When the bids do not cover the shortfall, every bid holding something is retracted
      whole and the shortfall shrinks by all they hold. */
  lemma {:induction false} PlanExhausts(queue: Addr, bids: seq<Bid>, remaining: nat)
    requires 0 < remaining
    ensures var p := PlanRetraction(queue, bids, remaining);
            p.left <= remaining &&
            (p.left > 0 ==>
               TotalAmount(bids) < remaining && p.left == remaining - TotalAmount(bids) &&
               p.messages == FullRetractions(queue, bids))
  {
    if bids != [] {
      var b := bids[0];
      if b.amount == 0 {
        PlanExhausts(queue, bids[1..], remaining);
      } else if b.amount < remaining {
        PlanExhausts(queue, bids[1..], remaining - b.amount);
      }
    }
  }

  /** When nothing is left, `j` is the first bid at which the running total reaches the
      shortfall: the bids before it are retracted whole and `j` by exactly what is still
      missing, as the last message. */
  lemma {:induction false} PlanCovers(queue: Addr, bids: seq<Bid>, remaining: nat) returns (j: nat)
    requires 0 < remaining && PlanRetraction(queue, bids, remaining).left == 0
    ensures j < |bids|
    ensures TotalAmount(bids[..j]) < remaining <= TotalAmount(bids[..j + 1])
    ensures PlanRetraction(queue, bids, remaining).messages ==
            FullRetractions(queue, bids[..j]) + [Retract(queue, bids[j].idx, Some(remaining - TotalAmount(bids[..j])))]
  {
    var b := bids[0];
    if b.amount != 0 && b.amount >= remaining {
      assert bids[..0] == [] && bids[..1] == [b];
      assert TotalAmount([b]) == b.amount + TotalAmount([b][1..]);
      return 0;
    }
    var rem := if b.amount == 0 then remaining else remaining - b.amount;
    var k := PlanCovers(queue, bids[1..], rem);
    j := k + 1;
    PrefixStep(bids, k);
    PrefixStep(bids, k + 1);
    assert bids[..j][0] == b && bids[..j + 1][0] == b;
    assert bids[1..][k] == bids[j];
    assert TotalAmount(bids[..j]) == b.amount + TotalAmount(bids[1..][..k]);
    assert TotalAmount(bids[..j + 1]) == b.amount + TotalAmount(bids[1..][..k + 1]);
    assert FullRetractions(queue, bids[..j]) ==
           (if b.amount == 0 then [] else [Retract(queue, b.idx, None)]) +
           FullRetractions(queue, bids[1..][..k]);
  }

  /** The shortfall left over is what the bids cannot cover, or nothing. */
  lemma {:induction false} PlanLeft(queue: Addr, bids: seq<Bid>, remaining: nat)
    ensures PlanRetraction(queue, bids, remaining).left ==
            if TotalAmount(bids) < remaining then remaining - TotalAmount(bids) else 0
  {
    if bids != [] {
      var b := bids[0];
      if b.amount == 0 {
        PlanLeft(queue, bids[1..], remaining);
      } else if b.amount < remaining {
        PlanLeft(queue, bids[1..], remaining - b.amount);
      }
    }
  }

  /** The two outcomes of the scan together: at most one partial retraction, always the
      last message, and a residual shortfall only once every bid has been retracted. */
  lemma PlanShape(queue: Addr, bids: seq<Bid>, remaining: nat)
    requires 0 < remaining
    ensures var p := PlanRetraction(queue, bids, remaining);
            (p.left > 0 ==> p.left == remaining - TotalAmount(bids) && p.messages == FullRetractions(queue, bids)) &&
            (p.left == 0 ==>
               exists j :: 0 <= j < |bids| &&
                 TotalAmount(bids[..j]) < remaining <= TotalAmount(bids[..j + 1]) &&
                 p.messages == FullRetractions(queue, bids[..j]) +
                               [Retract(queue, bids[j].idx, Some(remaining - TotalAmount(bids[..j])))])
  {
    PlanExhausts(queue, bids, remaining);
    if PlanRetraction(queue, bids, remaining).left == 0 {
      var j := PlanCovers(queue, bids, remaining);
    }
  }

  /** The retraction loop (src/contract.rs:392-433), over the whole snapshot of bids. */
  method RetractionLoop(queue: Addr, bids: seq<Bid>, remaining: nat) returns (messages: seq<Instruction>, left: nat)
    ensures Plan(messages, left) == PlanRetraction(queue, bids, remaining)
  {
    messages := [];
    left := remaining;
    var i := 0;
    while i < |bids|
      invariant i <= |bids|
      invariant PlanRetraction(queue, bids, remaining) ==
                var rest := PlanRetraction(queue, bids[i..], left); Plan(messages + rest.messages, rest.left)
    {
      var item := bids[i];
      assert bids[i..][1..] == bids[i + 1..];
      if item.amount != 0 {
        if item.amount < left {
          messages := messages + [Retract(queue, item.idx, None)];
          left := left - item.amount;
        } else {
          messages := messages + [Retract(queue, item.idx, Some(left))];
          left := 0;
          return;
        }
      }
      i := i + 1;
    }
  }
}
