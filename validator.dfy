/** The offline validator of gate-sw/og-validate.py: a structural decode of
    the 512-byte certificate followed by a first-failure-wins chain of
    checks against the patch. The Python function returns a boolean and
    prints a diagnostic; here the outcome carries the diagnostic's numbers. */
module Validator {
  import opened Bytes
  import Entropy

  /** The epsilon ceiling, written as the literal 50000 in the validator. */
  const EpsilonCeiling: nat := 50000

  /** Why a certificate was rejected, with the values the error message prints. */
  datatype Reason =
    | SizeError(got: nat)
    | MagicError(magic: seq<byte>)
    | HashMismatch
    | BudgetExceedsHardMax(budget: u32, hardMax: u32)
    | EpsilonOutOfBounds(epsilon: u32)
    | CostExceedsBudget(cost: nat, budget: u32)

  /** `True` together with the printed budget, cost, margin and epsilon, or
      `False` together with the reason. */
  datatype Outcome =
    | Valid(budget: u32, cost: nat, margin: nat, epsilon: u32)
    | Invalid(reason: Reason)

  /** `validate_certificate` on the contents of the two files. */
  function ValidateCertificate(patch: seq<byte>, cert: seq<byte>, sha256: seq<byte> -> Digest): (o: Outcome)
    ensures o.Valid? ==>
      && |cert| == 512
      && cert[0..4] == Magic
      && cert[48..80] == sha256(patch)
      && o.budget == UnpackU32(cert[4..8]) <= UnpackU32(cert[8..12])
      && o.epsilon == UnpackU32(cert[12..16]) <= EpsilonCeiling
      && o.cost == Entropy.Cost(patch)
      && o.cost + o.margin == o.budget
  {
    if |cert| != 512 then Invalid(SizeError(|cert|))
    else if cert[0..4] != Magic then Invalid(MagicError(cert[0..4]))
    else
      var budget := UnpackU32(cert[4..8]);
      var hardMax := UnpackU32(cert[8..12]);
      var epsilon := UnpackU32(cert[12..16]);
      var patchHash := cert[48..80];
      if patchHash != sha256(patch) then Invalid(HashMismatch)
      else
        var cost := Entropy.Cost(patch);
        if budget > hardMax then Invalid(BudgetExceedsHardMax(budget, hardMax))
        else if epsilon > EpsilonCeiling then Invalid(EpsilonOutOfBounds(epsilon))
        else if cost > budget then Invalid(CostExceedsBudget(cost, budget))
        else Valid(budget, cost, budget - cost, epsilon)
  }

  /** The verdict reads only the magic, the three u32 fields and the patch
      hash: two 512-byte certificates that agree on bytes 0..15 and 48..79
      get the same outcome, whatever their parent hash (16..47), signature
      slot (80..143) and reserved bytes (144..511) hold. */
  lemma VerdictIgnoresUnboundBytes(patch: seq<byte>, c1: seq<byte>, c2: seq<byte>, sha256: seq<byte> -> Digest)
    requires |c1| == 512 && |c2| == 512
    requires c1[..16] == c2[..16] && c1[48..80] == c2[48..80]
    ensures ValidateCertificate(patch, c1, sha256) == ValidateCertificate(patch, c2, sha256)
  {
    assert c1[0..4] == c1[..16][0..4] && c2[0..4] == c2[..16][0..4];
    assert c1[4..8] == c1[..16][4..8] && c2[4..8] == c2[..16][4..8];
    assert c1[8..12] == c1[..16][8..12] && c2[8..12] == c2[..16][8..12];
    assert c1[12..16] == c1[..16][12..16] && c2[12..16] == c2[..16][12..16];
  }

  /** The order of the checks and their boundaries: a wrong length is
      rejected whatever the bytes, a wrong magic next, then a wrong patch
      hash; budget > hard_max is rejected even for a patch that costs
      nothing; epsilon = 50000 and cost = budget are still accepted. */
  lemma CheckOrder(patch: seq<byte>, cert: seq<byte>, sha256: seq<byte> -> Digest)
    ensures |cert| != 512 ==> ValidateCertificate(patch, cert, sha256) == Invalid(SizeError(|cert|))
    ensures |cert| == 512 && cert[0..4] != Magic ==>
      ValidateCertificate(patch, cert, sha256) == Invalid(MagicError(cert[0..4]))
    ensures |cert| == 512 && cert[0..4] == Magic && cert[48..80] != sha256(patch) ==>
      ValidateCertificate(patch, cert, sha256) == Invalid(HashMismatch)
    ensures |cert| == 512 && cert[0..4] == Magic && cert[48..80] == sha256(patch) ==>
      var budget := UnpackU32(cert[4..8]);
      var hardMax := UnpackU32(cert[8..12]);
      var epsilon := UnpackU32(cert[12..16]);
      var cost := Entropy.Cost(patch);
      && (budget > hardMax ==>
            ValidateCertificate(patch, cert, sha256) == Invalid(BudgetExceedsHardMax(budget, hardMax)))
      && (budget <= hardMax && epsilon > EpsilonCeiling ==>
            ValidateCertificate(patch, cert, sha256) == Invalid(EpsilonOutOfBounds(epsilon)))
      && (budget <= hardMax && epsilon <= EpsilonCeiling && cost > budget ==>
            ValidateCertificate(patch, cert, sha256) == Invalid(CostExceedsBudget(cost, budget)))
      && (budget <= hardMax && epsilon <= EpsilonCeiling && cost <= budget ==>
            ValidateCertificate(patch, cert, sha256) == Valid(budget, cost, budget - cost, epsilon))
  {
  }
}
