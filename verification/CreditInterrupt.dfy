/** The lock operations of the credit half of handle_intr1, including its error paths. */
module CreditInterrupt {

  datatype LockOp = Take | Transfer | Give

  // Clears the interrupt, reads CONFIG_W1, and releases; each failure releases once more
  // and carries on.
  function CreditOps(clearOk: bool, readOk: bool): seq<LockOp> {
    [Take, Transfer] + (if clearOk then [] else [Give]) + [Transfer] + (if readOk then [] else [Give]) + [Give]
  }

  // Every transfer while holding the mutex, no take while holding, no give without.
  predicate Disciplined(ops: seq<LockOp>, held: bool) {
    if ops == [] then !held
    else
      match ops[0]
      case Take => !held && Disciplined(ops[1..], true)
      case Transfer => held && Disciplined(ops[1..], held)
      case Give => held && Disciplined(ops[1..], false)
  }

  predicate TransfersHeld(ops: seq<LockOp>, held: bool) {
    ops == [] ||
    (match ops[0]
     case Take => TransfersHeld(ops[1..], true)
     case Transfer => held && TransfersHeld(ops[1..], held)
     case Give => TransfersHeld(ops[1..], false))
  }

  lemma {:induction false} Unroll(op: LockOp, rest: seq<LockOp>, held: bool)
    ensures Disciplined([op] + rest, held) <==>
            if op == Take then !held && Disciplined(rest, true) else held && Disciplined(rest, op == Transfer)
    ensures TransfersHeld([op] + rest, held) <==>
            (op == Transfer ==> held) && TransfersHeld(rest, if op == Transfer then held else op == Take)
  {
    assert ([op] + rest)[1..] == rest;
  }

  // The mutex is used correctly exactly when both register accesses succeed, and the
  // read of CONFIG_W1 is covered by it exactly when the clear succeeds.
  lemma CreditPathDisciplined(clearOk: bool, readOk: bool)
    ensures Disciplined(CreditOps(clearOk, readOk), false) <==> clearOk && readOk
    ensures TransfersHeld(CreditOps(clearOk, readOk), false) <==> clearOk
  {
    var release := if readOk then [Give] else [Give, Give];
    var second := [Transfer] + release;
    var first := if clearOk then second else [Give] + second;
    assert CreditOps(clearOk, readOk) == [Take] + ([Transfer] + first);
    Unroll(Take, [Transfer] + first, false);
    Unroll(Transfer, first, true);
    Unroll(Give, second, true);
    Unroll(Transfer, release, clearOk);
    assert [Give, Give] == [Give] + [Give] && [Give] == [Give] + [];
    Unroll(Give, [Give], true);
    Unroll(Give, [], true);
    Unroll(Give, [], false);
  }
}
