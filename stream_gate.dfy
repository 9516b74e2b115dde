/** The streaming gate whose behaviour gate-tests/hw/test_gate.py asserts:
    on each clock edge a valid character adds its Λ-table cost to the
    accumulator, and the gate latches closed, raising `violation`, as soon
    as the accumulated total exceeds the budget input. */
module StreamGate {
  import opened Bytes
  import Entropy

  class Gate {
    /** `entropy_accum_o` */
    var total: nat
    /** `gate_open_o` */
    var gateOpen: bool
    /** `violation_o` */
    var violation: bool
    /** The valid characters accepted since the last reset. */
    ghost var fed: seq<byte>

    /** The accumulator is the batch cost of what was fed, and the two flags
        are each other's negation. */
    ghost predicate Valid()
      reads this
    {
      total == Entropy.Cost(fed) && violation == !gateOpen
    }

    /** The state after `rst_n` is released. */
    constructor ()
      ensures Valid() && fed == []
      ensures total == 0 && gateOpen && !violation
    {
      total, gateOpen, violation := 0, true, false;
      fed := [];
    }

    /** `rst_n` low: total 0, gate open, no violation. */
    method Reset()
      modifies this
      ensures Valid() && fed == []
      ensures total == 0 && gateOpen && !violation
    {
      total, gateOpen, violation := 0, true, false;
      fed := [];
    }

    /** One rising clock edge with inputs `char_valid_i`, `char_ascii_i` and
        `budget_i`. An idle cycle adds nothing; a closed gate never reopens;
        a total equal to the budget keeps the gate open. */
    method Step(charValid: bool, ascii: byte, budget: nat)
      requires Valid()
      modifies this
      ensures Valid()
      ensures fed == if charValid then old(fed) + [ascii] else old(fed)
      ensures total == old(total) + (if charValid then Entropy.LambdaTable[ascii] else 0)
      ensures gateOpen == (old(gateOpen) && total <= budget)
      ensures violation == (old(violation) || total > budget)
    {
      if charValid {
        total := total + Entropy.LambdaTable[ascii];
        fed := fed + [ascii];
        assert (fed)[..|fed| - 1] == old(fed);
      }
      if total > budget {
        gateOpen := false;
        violation := true;
      }
    }

    /** Feeding a byte sequence one valid character per cycle under a fixed
        budget: the total grows by the batch cost of the sequence, and, since
        running totals only grow, a non-empty feed leaves the gate open
        exactly when it was open before and the final total is within the
        budget. */
    method Feed(s: seq<byte>, budget: nat)
      requires Valid()
      modifies this
      ensures Valid()
      ensures fed == old(fed) + s
      ensures total == old(total) + Entropy.Cost(s)
      ensures gateOpen <==> old(gateOpen) && (s == [] || total <= budget)
    {
      ghost var total0 := total;
      ghost var closed0 := !gateOpen;
      for i := 0 to |s|
        invariant Valid()
        invariant fed == old(fed) + s[..i]
        invariant total == total0 + Entropy.Cost(s[..i])
        invariant gateOpen <==> !closed0 && (i == 0 || total <= budget)
      {
        Step(true, s[i], budget);
        assert s[..i + 1] == s[..i] + [s[i]];
        Entropy.CostSnoc(s[..i], s[i]);
      }
      assert s[..|s|] == s;
    }

    /** From a fresh session the streaming total is the batch cost, and the
        gate ends open exactly when that cost is within the budget. */
    method FeedSession(s: seq<byte>, budget: nat)
      modifies this
      ensures Valid() && fed == s
      ensures total == Entropy.Cost(s)
      ensures gateOpen <==> Entropy.Cost(s) <= budget
      ensures violation <==> Entropy.Cost(s) > budget
    {
      Reset();
      Feed(s, budget);
    }
  }

  /** `test_basic_entropy`: after reset, one valid 'A' under budget 1000
      followed by an idle cycle leaves the accumulator at 450 and the gate
      open. */
  method BasicEntropyTest() returns (accum: nat, open: bool)
    ensures accum == 450 && open
  {
    var gate := new Gate();
    Entropy.TableShape();
    gate.Step(true, 65, 1000);
    gate.Step(false, 65, 1000);
    accum, open := gate.total, gate.gateOpen;
  }

  /** `test_gate_close`: after reset, 'A' then 'B' (450 + 420 = 870) under
      budget 800, each followed by an idle cycle, close the gate and raise
      `violation`. */
  method GateCloseTest() returns (open: bool, violation: bool)
    ensures !open && violation
  {
    var gate := new Gate();
    Entropy.TableShape();
    gate.Step(true, 65, 800);
    gate.Step(false, 65, 800);
    gate.Step(true, 66, 800);
    gate.Step(false, 66, 800);
    open, violation := gate.gateOpen, gate.violation;
  }
}
