/** How the pieces agree with each other: the encoder against the offline
    validator, the firmware's table and cost loop against the Python ones,
    the firmware's reading of the 512-byte layout against the encoder, and
    where the two validators' verdicts coincide and where they part. */
module CrossCheck {
  import opened Bytes
  import Entropy
  import GateHeader
  import Firmware
  import Packer
  import Validator
  import opened Tables

  /** The shared constants: gate.h's `EPSILON_MAX` is the validator's literal
      50000, `BUDGET_DEFAULT` is the encoder's `--B` default, and the
      encoder's epsilon default sits exactly on the ceiling. */
  lemma ConstantsAgree()
    ensures GateHeader.EpsilonMax == Validator.EpsilonCeiling == Packer.DefaultEpsilon
    ensures GateHeader.BudgetDefault == Packer.DefaultBudget
  {
  }

  // ---- Encoder against the offline validator ----

  /** Validating a freshly packed certificate against its own patch: the
      decode recovers budget, hard_max and epsilon, the hash check passes,
      and the certificate is accepted exactly when budget <= hard_max,
      epsilon <= 50000 and the patch costs at most the budget, with margin
      budget - cost. */
  lemma PackThenValidate(patch: seq<byte>, budget: u32, hardMax: u32, epsilon: u32,
                         parent: Digest, sha256: seq<byte> -> Digest)
    ensures var o := Validator.ValidateCertificate(patch, Packer.CertImage(budget, hardMax, epsilon, parent, sha256(patch)), sha256);
      var cost := Entropy.Cost(patch);
      && (o.Valid? <==> budget <= hardMax && epsilon <= Validator.EpsilonCeiling && cost <= budget)
      && (o.Valid? ==> o == Validator.Valid(budget, cost, budget - cost, epsilon))
      && (budget > hardMax ==> o == Validator.Invalid(Validator.BudgetExceedsHardMax(budget, hardMax)))
      && (budget <= hardMax && epsilon > Validator.EpsilonCeiling ==>
            o == Validator.Invalid(Validator.EpsilonOutOfBounds(epsilon)))
      && (budget <= hardMax && epsilon <= Validator.EpsilonCeiling && cost > budget ==>
            o == Validator.Invalid(Validator.CostExceedsBudget(cost, budget)))
  {
    Packer.CertImageDecodes(budget, hardMax, epsilon, parent, sha256(patch));
  }

  /** With the encoder's defaults (budget 300000 above hard_max 250000) every
      certificate is rejected by the budget check, whatever the patch. */
  lemma DefaultCertificateRejected(patch: seq<byte>, sha256: seq<byte> -> Digest)
    ensures Validator.ValidateCertificate(
              patch,
              Packer.CertImage(Packer.DefaultBudget, Packer.DefaultHardMax, Packer.DefaultEpsilon,
                               Packer.DefaultParent, sha256(patch)),
              sha256)
            == Validator.Invalid(Validator.BudgetExceedsHardMax(300000, 250000))
  {
    PackThenValidate(patch, Packer.DefaultBudget, Packer.DefaultHardMax, Packer.DefaultEpsilon,
                     Packer.DefaultParent, sha256);
  }

  /** The end-to-end scenarios for the patch "AB" (cost 870): a budget of
      800 is rejected with cost 870 and budget 800 reported, a budget of 1000
      is accepted with margin 130. */
  lemma PatchABScenarios(hardMax: u32, epsilon: u32, parent: Digest, sha256: seq<byte> -> Digest)
    requires hardMax >= 1000 && epsilon <= Validator.EpsilonCeiling
    ensures Validator.ValidateCertificate([65, 66], Packer.CertImage(800, hardMax, epsilon, parent, sha256([65, 66])), sha256)
            == Validator.Invalid(Validator.CostExceedsBudget(870, 800))
    ensures Validator.ValidateCertificate([65, 66], Packer.CertImage(1000, hardMax, epsilon, parent, sha256([65, 66])), sha256)
            == Validator.Valid(1000, 870, 130, epsilon)
  {
    Entropy.KnownVectors();
    PackThenValidate([65, 66], 800, hardMax, epsilon, parent, sha256);
    PackThenValidate([65, 66], 1000, hardMax, epsilon, parent, sha256);
  }

  /** A 33-byte parent hash makes the encoder emit a 513-byte certificate,
      which the validator then refuses for its size. */
  method LongParentCertificate(patch: seq<byte>, sha256: seq<byte> -> Digest) returns (cert: seq<byte>)
    ensures |cert| == 513
    ensures Validator.ValidateCertificate(patch, cert, sha256) == Validator.Invalid(Validator.SizeError(513))
  {
    var r := Packer.PackCertificate(patch, 1000, 1000, 0, Zeros(33), sha256);
    cert := r.value;
  }

  /** A 31-byte parent hash is silently padded with a zero byte: the
      certificate is the one a 32-byte parent ending in 0 would give. */
  method ShortParentCertificate(patch: seq<byte>, sha256: seq<byte> -> Digest) returns (cert: seq<byte>)
    ensures cert == Packer.CertImage(1000, 1000, 0, Zeros(32), sha256(patch))
  {
    var r := Packer.PackCertificate(patch, 1000, 1000, 0, Zeros(31), sha256);
    assert Zeros(31) + Zeros(1) == Zeros(32);
    cert := r.value;
  }

  // ---- Firmware against Python ----

  /** The two tables agree entry for entry over all 256 byte values. */
  lemma TablesAgree()
    ensures Firmware.LambdaTable == Entropy.LambdaTable
  {
    GroupsAgree();
    UpperAgree();
    LowerAgree();
    var digits := Entropy.ControlRow + Entropy.PunctuationRow + Entropy.DigitRow;
    AppendAssoc(digits, Entropy.UpperRow0, Entropy.UpperRow1);
    var upper := digits + Entropy.UpperRow0 + Entropy.UpperRow1;
    AppendAssoc(upper, Entropy.LowerRow0, Entropy.LowerRow1);
  }

  /** Control characters, punctuation and digits agree, and so do the zero
      tails. */
  lemma GroupsAgree()
    ensures Firmware.ControlChars == Entropy.ControlRow
    ensures Firmware.Punctuation == Entropy.PunctuationRow
    ensures Firmware.Numbers == Entropy.DigitRow
    ensures Zeros(256 - |Firmware.Initializers|) == Entropy.ExtendedRow
  {
  }

  /** The four C upper-case lines are the two Python upper-case rows. */
  lemma UpperAgree()
    ensures Firmware.UpperCase == Entropy.UpperRow0 + Entropy.UpperRow1
  {
    assert Firmware.UpperCase0 + Firmware.UpperCase1 == Entropy.UpperRow0;
    assert Firmware.UpperCase2 + Firmware.UpperCase3 == Entropy.UpperRow1;
    AppendAssoc(Firmware.UpperCase0 + Firmware.UpperCase1, Firmware.UpperCase2, Firmware.UpperCase3);
  }

  /** The four C lower-case lines are the two Python lower-case rows. */
  lemma LowerAgree()
    ensures Firmware.LowerCase == Entropy.LowerRow0 + Entropy.LowerRow1
  {
    assert Firmware.LowerCase0 + Firmware.LowerCase1 == Entropy.LowerRow0;
    assert Firmware.LowerCase2 + Firmware.LowerCase3 == Entropy.LowerRow1;
    AppendAssoc(Firmware.LowerCase0 + Firmware.LowerCase1, Firmware.LowerCase2, Firmware.LowerCase3);
  }

  /** The firmware's unbounded sum is the Python cost. */
  lemma SumsAgree(s: seq<byte>)
    ensures Firmware.FullSum(s) == Entropy.Cost(s)
  {
    TablesAgree();
  }

  /** The firmware cost against the Python cost: equal up to 1,000,000;
      above it, the first prefix cost past 1,000,000, at most 1,000,450. */
  lemma FirmwareCostAgainstPython(s: seq<byte>)
    ensures Entropy.Cost(s) <= GateHeader.BudgetHardMax ==> Firmware.FirmwareCost(s) == Entropy.Cost(s)
    ensures Entropy.Cost(s) > GateHeader.BudgetHardMax ==>
      GateHeader.BudgetHardMax < Firmware.FirmwareCost(s) <= GateHeader.BudgetHardMax + MaxByteCost &&
      exists k :: 0 < k <= |s| && Firmware.FirmwareCost(s) == Entropy.Cost(s[..k]) &&
        Entropy.Cost(s[..k - 1]) <= GateHeader.BudgetHardMax
  {
    SumsAgree(s);
    Firmware.FirmwareCostSpec(s);
    if Entropy.Cost(s) > GateHeader.BudgetHardMax {
      var k :| 0 < k <= |s| && Firmware.FirmwareCost(s) == Firmware.FullSum(s[..k]) &&
        Firmware.FullSum(s[..k - 1]) <= GateHeader.BudgetHardMax;
      SumsAgree(s[..k]);
      SumsAgree(s[..k - 1]);
    }
  }

  /** The firmware reads an encoded certificate's fields back exactly, at the
      offsets of gate.h. */
  lemma FirmwareReadsEncodedLayout(budget: u32, hardMax: u32, epsilon: u32, parent: Digest, patchHash: Digest)
    ensures Firmware.FromWire(Packer.CertImage(budget, hardMax, epsilon, parent, patchHash))
            == Firmware.GateCert(Magic, budget, hardMax, epsilon, parent, patchHash, Zeros(64), Zeros(368))
  {
    var c := Packer.CertImage(budget, hardMax, epsilon, parent, patchHash);
    Packer.CertImageDecodes(budget, hardMax, epsilon, parent, patchHash);
    Packer.CertImageLayout(budget, hardMax, epsilon, parent, patchHash);
    assert c[80..144] == Zeros(64);
    assert c[144..512] == Zeros(368);
  }

  /** The two validators on the same 512-byte certificate: once the patch
      hash matches and the budget is within both the certificate's hard_max
      and `BUDGET_HARD_MAX`, Python accepts exactly when the firmware returns
      0, and each firmware error code matches the Python reason. */
  lemma VerdictsAgree(patch: seq<byte>, cert: seq<byte>, sha256: seq<byte> -> Digest)
    requires |cert| == 512
    requires cert[48..80] == sha256(patch)
    requires UnpackU32(cert[4..8]) <= UnpackU32(cert[8..12])
    requires UnpackU32(cert[4..8]) <= GateHeader.BudgetHardMax
    ensures var o := Validator.ValidateCertificate(patch, cert, sha256);
      var code := Firmware.ValidateCert(Firmware.FromWire(cert), patch);
      && (o.Valid? <==> code == 0)
      && (o == Validator.Invalid(Validator.MagicError(cert[0..4])) <==> code == -1)
      && (o.Invalid? && o.reason.EpsilonOutOfBounds? <==> code == -3)
      && (o.Invalid? && o.reason.CostExceedsBudget? <==> code == -4)
  {
    var g := Firmware.FromWire(cert);
    Firmware.ValidateCertVerdict(g, patch);
    SumsAgree(patch);
  }

  /** The firmware skips the hash check: a certificate bound to another patch
      is refused by Python but accepted by the firmware when its budget
      checks pass. */
  lemma FirmwareSkipsHashCheck(patch: seq<byte>, cert: seq<byte>, sha256: seq<byte> -> Digest)
    requires |cert| == 512 && cert[0..4] == Magic
    requires cert[48..80] != sha256(patch)
    requires UnpackU32(cert[4..8]) <= GateHeader.BudgetHardMax
    requires UnpackU32(cert[12..16]) <= GateHeader.EpsilonMax
    requires Entropy.Cost(patch) <= UnpackU32(cert[4..8])
    ensures Validator.ValidateCertificate(patch, cert, sha256) == Validator.Invalid(Validator.HashMismatch)
    ensures Firmware.ValidateCert(Firmware.FromWire(cert), patch) == 0
  {
    Firmware.ValidateCertVerdict(Firmware.FromWire(cert), patch);
    SumsAgree(patch);
  }

  /** The firmware ignores the certificate's hard_max: a budget above it but
      within `BUDGET_HARD_MAX` passes the firmware and fails Python, and a
      budget above `BUDGET_HARD_MAX` but within hard_max passes Python and
      fails the firmware with -2. */
  lemma HardMaxDisagreement(patch: seq<byte>, cert: seq<byte>, sha256: seq<byte> -> Digest)
    requires |cert| == 512 && cert[0..4] == Magic
    requires cert[48..80] == sha256(patch)
    requires UnpackU32(cert[12..16]) <= GateHeader.EpsilonMax
    requires Entropy.Cost(patch) <= UnpackU32(cert[4..8])
    ensures var budget := UnpackU32(cert[4..8]);
      var hardMax := UnpackU32(cert[8..12]);
      hardMax < budget <= GateHeader.BudgetHardMax ==>
        && Validator.ValidateCertificate(patch, cert, sha256) == Validator.Invalid(Validator.BudgetExceedsHardMax(budget, hardMax))
        && Firmware.ValidateCert(Firmware.FromWire(cert), patch) == 0
    ensures var budget := UnpackU32(cert[4..8]);
      var hardMax := UnpackU32(cert[8..12]);
      GateHeader.BudgetHardMax < budget <= hardMax ==>
        && Validator.ValidateCertificate(patch, cert, sha256).Valid?
        && Firmware.ValidateCert(Firmware.FromWire(cert), patch) == -2
  {
    Firmware.ValidateCertVerdict(Firmware.FromWire(cert), patch);
    SumsAgree(patch);
  }

  /** The two validators on every 512-byte certificate: they reject a bad
      magic alike; a certificate Python accepts passes the firmware unless
      its budget exceeds `BUDGET_HARD_MAX`; and one the firmware passes is
      accepted by Python, or refused only for the two checks the firmware
      does not make, the patch hash and hard_max. */
  lemma ValidatorsCompared(patch: seq<byte>, cert: seq<byte>, sha256: seq<byte> -> Digest)
    requires |cert| == 512
    ensures var o := Validator.ValidateCertificate(patch, cert, sha256);
      var code := Firmware.ValidateCert(Firmware.FromWire(cert), patch);
      && (o == Validator.Invalid(Validator.MagicError(cert[0..4])) <==> code == -1)
      && (o.Valid? ==> code == 0 || (code == -2 && UnpackU32(cert[4..8]) > GateHeader.BudgetHardMax))
      && (code == 0 ==>
            || o.Valid?
            || o == Validator.Invalid(Validator.HashMismatch)
            || (o.Invalid? && o.reason.BudgetExceedsHardMax?))
  {
    Firmware.ValidateCertVerdict(Firmware.FromWire(cert), patch);
    SumsAgree(patch);
  }

  /** The firmware verdict on a freshly packed certificate: 0 exactly when the
      budget is within `BUDGET_HARD_MAX`, epsilon within `EPSILON_MAX` and the
      patch costs at most the budget, whatever hard_max says. */
  lemma PackThenFirmware(patch: seq<byte>, budget: u32, hardMax: u32, epsilon: u32, parent: Digest, patchHash: Digest)
    ensures Firmware.ValidateCert(Firmware.FromWire(Packer.CertImage(budget, hardMax, epsilon, parent, patchHash)), patch) == 0
      <==> budget <= GateHeader.BudgetHardMax && epsilon <= GateHeader.EpsilonMax && Entropy.Cost(patch) <= budget
  {
    FirmwareReadsEncodedLayout(budget, hardMax, epsilon, parent, patchHash);
    Firmware.ValidateCertVerdict(Firmware.FromWire(Packer.CertImage(budget, hardMax, epsilon, parent, patchHash)), patch);
    SumsAgree(patch);
  }
}
