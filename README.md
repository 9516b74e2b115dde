# OPEN GATE certificates and Λ-cost, in Dafny

OPEN GATE decides whether a model patch may be applied. It weighs the patch
byte by byte against a 256-entry Λ-table, which gives the energy cost in
picojoules of each byte value. It then compares that cost with the budget in
a 512-byte certificate. This project models the core of the system and proves
properties of it:

- **Entropy** (`gate-sw/og-entropy.py`): the Python Λ-table and
  `compute_lambda_cost`.
  - The batch cost is `Entropy.Cost`.
  - The accumulating loop is a method proved equal to it.
  - Lemmas show the cost is additive over concatenation and invariant
    under permutation.
- **Tables**: the shape both `LAMBDA_TABLE`s share.
  - A table is 256 non-negative costs, one per byte value.
  - `Sum` is a table's sum over a byte sequence.
  - Its lemmas cover one more byte, concatenation, permutation, prefixes
    and a per-byte bound.
  - The Python cost and the firmware's unbounded sum are both `Sum` over
    their own table.
- **Packer** (`gate-sw/og-pack.py`): `pack_certificate` and the
  defaults of `main`.
  - The method follows the source's steps: a zeroed `bytearray(512)`,
    then slice assignments and `struct.pack_into`.
  - Python's slice assignment can grow the buffer, and the model follows it.
  - For every parent length, the result is tied to the intended image
    `CertImage`.
- **Validator** (`gate-sw/og-validate.py`): `validate_certificate`, as a
  first-failure-wins chain.
  - The checks come in this order: size, magic, patch hash, budget against
    hard_max, epsilon, cost.
  - The outcome carries the numbers the diagnostics print.
- **GateHeader** (`gate-core/fw/gate.h`): the budget constants and the
  packed `gate_cert_t` layout, as prefix sums of the member sizes.
- **Firmware** (`gate-core/fw/gate.c`): the C table, the `uint32_t` cost
  loop and `validate_cert`.
  - The loop adds modulo 2^32 and stops early, as the C code does.
  - It is proved never to wrap.
  - Its result is the exact sum up to 1,000,000. Past that, it is the first
    prefix sum over 1,000,000.
- **StreamGate** (`gate-tests/hw/test_gate.py`): the streaming hardware
  gate, as a class with one method per clock edge.
  - The two cocotb tests are methods whose postconditions are the test
    assertions.
  - The class invariant ties the accumulator to the batch cost.
- **CrossCheck**: the pieces against each other.
  - Encoder against validator.
  - The C table and loop against the Python ones.
  - The firmware's reading of a certificate against the encoder's layout.
  - The exact conditions under which the two validators agree or disagree.

The Python validator computes the cost once the patch hash has matched and
before the bound checks, and so does `Validator.ValidateCertificate`.

SHA-256 is a parameter `sha256: seq<byte> -> Digest` of every member that
hashes, so nothing depends on its internals. Files and command-line
arguments become parameters and results.

Where the source's comments and its code differ, the model follows the code:

- **Parent length.** `og-pack.py` promises a 512-byte certificate (lines 3
  and 16), and `gate.h` declares `parent_hash[32]`. Yet the encoder never
  checks the parent's length:
  - a shorter parent is zero-padded;
  - a longer one makes the certificate longer than 512 bytes.

  `Packer.PackCertificate` models that behaviour. The check the certificate
  format calls for is `Packer.PackCertificateChecked` (see Findings).
- **Reserved bytes.** The comment at `og-pack.py:40` speaks of 372
  reserved bytes, but the code writes 368.

## Model

The constants are transcribed as declared, a Dafny `const` each:

- `GateHeader.BudgetDefault`, `BudgetHardMax` and `EpsilonMax`: `gate-core/fw/gate.h:9-11`.
- `Packer.DefaultBudget`, `DefaultHardMax`, `DefaultEpsilon` and `DefaultParent`: the `main` defaults at `gate-sw/og-pack.py:52-56`.
- `Entropy.LambdaTable`: `gate-sw/og-entropy.py:12-20`, one constant per source row.
- `Firmware.LambdaTable`: `gate-core/fw/gate.c:7-28`, one constant per initialiser line, then zeros up to 256 entries.
- `Tables.MaxByteCost`: 450, the largest entry of both tables.
- `Validator.EpsilonCeiling`: the literal 50000 at `gate-sw/og-validate.py:48`.
- `GateHeader.HeaderSizes`, `DeclaredSizes` and `WireSizes`: the member sizes of `gate_cert_t` at `gate-core/fw/gate.h:17-25`, with `reserved` as declared (372) or as written (368).
- `GateHeader.MagicOffset`, `BudgetOffset`, `HardMaxOffset`, `EpsilonOffset`, `ParentHashOffset`, `PatchHashOffset`, `SignatureOffset` and `ReservedOffset`: the member offsets 0, 4, 8, 12, 16, 48, 80 and 144 of the same struct, which `GateHeader.HeaderLayout` proves are the prefix sums of the sizes.
- `GateHeader.CertSize`: the 512 bytes the comment at `gate-core/fw/gate.h:16` promises.

The rows for `CrossCheck.ConstantsAgree`, `CrossCheck.DefaultCertificateRejected`,
`Entropy.TableShape` and `Firmware.TableBound` state what is proved about them.

| member | source | states |
|---|---|---|
| Bytes.PackU32 | gate-sw/og-pack.py:29-31 | `struct.pack('<I', x)`: the four bytes of a u32, least significant first. `Bytes.UnpackPack` and `Bytes.PackUnpack` prove it is inverse to `UnpackU32`. |
| Bytes.UnpackU32 | gate-sw/og-validate.py:28-30 | `struct.unpack('<I', b)[0]` on a 4-byte slice: a little-endian u32. |
| Tables.Sum | gate-sw/og-entropy.py:24-27 | A table's entries summed over a byte sequence with unbounded integers, the last byte added last. The Python cost and the firmware's unbounded sum are both this sum. |
| Bytes.UnpackPack | gate-sw/og-pack.py:29-31 | Reading back the four little-endian bytes written for any u32 gives that u32. |
| Bytes.PackUnpack | gate-sw/og-validate.py:28-30 | Any four bytes are the little-endian encoding of the u32 read from them, so reading loses nothing. |
| Entropy.RowsBounded | gate-sw/og-entropy.py:13-20 | No row of the table has an entry above 450. |
| Entropy.TableShape | gate-sw/og-entropy.py:12-20 | No entry of the 256-entry table is above 450. 'A' costs 450, the maximum, and 'B' costs 420. |
| Entropy.ExtendedFree | gate-sw/og-entropy.py:20 | Every byte value from 128 up costs 0. |
| Entropy.Cost | gate-sw/og-entropy.py:22-27 | The cost of a blob is at most 450 times its length. |
| Entropy.ComputeLambdaCost | gate-sw/og-entropy.py:22-27 | The accumulating loop returns exactly the batch cost `Cost(data)`. |
| Entropy.CostAppend | gate-sw/og-entropy.py:24-26 | The cost of a concatenation is the sum of the costs. |
| Entropy.CostSnoc | gate-sw/og-entropy.py:25-26 | One more byte adds exactly its table entry. |
| Entropy.CostPermutation | gate-sw/og-entropy.py:24-26 | Two blobs with the same multiset of bytes have the same cost, so order does not matter. |
| Entropy.KnownVectors | gate-sw/og-entropy.py:16 | The empty blob costs 0, "A" costs 450 and "AB" costs 870. |
| Tables.SumBound | gate-sw/og-entropy.py:24-27 | Summing a table whose entries are at most m gives at most m per byte. |
| Tables.SumSnoc | gate-sw/og-entropy.py:25-26 | One more byte adds exactly its entry. |
| Tables.SumAppend | gate-sw/og-entropy.py:24-27 | The sum over a concatenation is the sum of the sums. |
| Tables.SumPermutation | gate-sw/og-entropy.py:24-27 | Two byte sequences with the same multiset of bytes have the same sum over any table. |
| Tables.SumRemoveAt | gate-sw/og-entropy.py:25-26 | Taking the byte at any position out of a sequence takes exactly its entry out of the sum. |
| Tables.SumPrefixMonotone | gate-core/fw/gate.c:33-34 | The sum over a prefix never exceeds the sum over the whole sequence. |
| GateHeader.HeaderLayout | gate-core/fw/gate.h:18-24 | magic, budget, hard_max, epsilon, parent_hash, patch_hash and signature sit at offsets 0, 4, 8, 12, 16, 48 and 80, and take 144 bytes. |
| GateHeader.OffsetsSnoc | gate-core/fw/gate.h:17-26 | Appending a member keeps every earlier offset. The new member sits at the old total size, and the total grows by its size. |
| GateHeader.DeclaredLayout | gate-core/fw/gate.h:16-26 | As declared, the members sit at offsets 0, 4, 8, 12, 16, 48, 80 and 144 and add up to 516 bytes, not the 512 claimed. |
| GateHeader.WireLayout | gate-core/fw/gate.h:17-25 | With 368 reserved bytes, the members keep the same offsets and fill exactly 512 bytes. |
| Firmware.LinesBounded | gate-core/fw/gate.c:12-26 | No initialiser line of the C table has an entry above 450. |
| Firmware.GroupsBounded | gate-core/fw/gate.c:8-26 | No initialiser group (control characters, punctuation, digits, upper case, lower case) has an entry above 450. |
| Firmware.TableBound | gate-core/fw/gate.c:7-28 | No entry of the C table exceeds 450, the elements without an initialiser included. |
| Firmware.Scan | gate-core/fw/gate.c:33-39 | The loop from index i with a running total: add the next entry modulo 2^32, return that total as soon as it exceeds BUDGET_HARD_MAX, and return the total at the end of the buffer. `Firmware.CostLoop` is proved equal to it and `Firmware.ScanSpec` states what it returns. |
| Firmware.FirmwareCost | gate-core/fw/gate.c:30-43 | What `compute_lambda_cost` returns: the scan over the C table from index 0 and total 0. `Firmware.FirmwareCostSpec` states its value. |
| Firmware.ScanSpec | gate-core/fw/gate.c:33-39 | From any point with a total within BUDGET_HARD_MAX, the loop never wraps. It ends with the full sum if that stays within the limit. Otherwise it ends with the first prefix sum over the limit, at most 450 past it. |
| Firmware.FirmwareCostSpec | gate-core/fw/gate.c:30-43 | `compute_lambda_cost` equals the unbounded sum when that is at most 1,000,000. Otherwise it lies in (1,000,000, 1,000,450] and is the sum of the first prefix that crosses 1,000,000. |
| Firmware.ScanWhole | gate-core/fw/gate.c:30-43 | For any table bounded by 450, the scan of a whole buffer returns the full sum when that is at most 1,000,000. Otherwise it returns a value in (1,000,000, 1,000,450] that is the sum of the first prefix crossing 1,000,000. |
| Firmware.CostLoop | gate-core/fw/gate.c:31-42 | For any table, the u32 loop with its early return computes `Scan` from index 0 and total 0. |
| Firmware.ComputeLambdaCost | gate-core/fw/gate.c:30-43 | The loop over `LAMBDA_TABLE` equals the unbounded sum when that is at most 1,000,000. Otherwise it returns a value in (1,000,000, 1,000,450]. |
| Firmware.FromWire | gate-core/fw/gate.h:17-26 | Reading 512 bytes as the packed struct gives hashes of 32 bytes, a 64-byte signature slot and 368 reserved bytes. |
| Firmware.ValidateCert | gate-core/fw/gate.c:45-71 | `validate_cert` returns one of 0, -1, -2, -3 or -4. |
| Firmware.ValidateCertVerdict | gate-core/fw/gate.c:45-71 | -1 on a bad magic, -2 when the budget exceeds BUDGET_HARD_MAX, -3 when epsilon exceeds EPSILON_MAX. -4 if and only if those pass and the patch's unbounded cost exceeds the budget. 0 if and only if they pass and it does not. |
| Packer.CertImage | gate-sw/og-pack.py:23-41 | The intended certificate is exactly 512 bytes. |
| Packer.CertImageLayout | gate-sw/og-pack.py:26-41 | Magic, the three u32 fields, the parent and the patch hash each sit at their offsets. Bytes 80 to 511 are zero. |
| Packer.CertImageDecodes | gate-sw/og-pack.py:26-35 | Reading an image at the validator's offsets recovers magic, budget, hard_max, epsilon, parent and patch hash exactly. |
| Packer.SliceAssign | gate-sw/og-pack.py:34 | Python's `buf[lo:hi] = v` with the indices clamped to the buffer. For a slice inside the buffer: the prefix before `lo` is kept, `v` follows, then the old bytes from `hi` on, so the length changes by the size difference and a shorter `v` moves the tail left. A slice that runs past the end replaces everything from `lo` with `v`. One that starts past the end appends `v`. |
| Packer.PackInto | gate-sw/og-pack.py:29-31 | `struct.pack_into` writes the four little-endian bytes at the offset and changes nothing else. |
| Packer.PackCertificate | gate-sw/og-pack.py:15-41 | The first field outside [0, 2^32) fails as `struct.error`. A parent of at most 32 bytes gives the 512-byte image with the parent zero-padded. A longer parent gives 480 bytes plus the parent's length. The first 512 are the image of the parent's first 32 bytes, because the later writes overwrite parent bytes 32..495. Then come the parent's bytes from index 496 on (none when the parent has at most 496 bytes), then zeros. |
| Packer.PackCertificateChecked | gate-sw/og-pack.py:34 | Like the encoder, but a parent that is not 32 bytes is an input error. Every certificate it yields is the 512-byte image. |
| Packer.ImageOfSteps | gate-sw/og-pack.py:34-41 | The four slice assignments on a header and a zeroed remainder, in closed form for every parent length. |
| Validator.ValidateCertificate | gate-sw/og-validate.py:11-62 | Acceptance implies 512 bytes, magic "OGT1", a matching hash, budget at most hard_max, epsilon at most 50000, the cost equal to the Python cost, and cost plus margin equal to the budget. |
| Validator.VerdictIgnoresUnboundBytes | gate-sw/og-validate.py:23-37 | The verdict depends only on bytes 0..15 and 48..79. The parent hash, signature slot and reserved bytes never matter. |
| Validator.CheckOrder | gate-sw/og-validate.py:18-54 | Each check fires exactly when the earlier ones pass, with the reported values. Boundary values are accepted: epsilon equal to 50000, cost equal to budget. |
| CrossCheck.ConstantsAgree | gate-core/fw/gate.h:9-11 | EPSILON_MAX equals the validator's 50000 and the encoder's epsilon default. BUDGET_DEFAULT equals the encoder's `--B` default. |
| CrossCheck.PackThenValidate | gate-sw/og-validate.py:44-62 | A packed certificate is accepted by its own patch exactly when budget ≤ hard_max, epsilon ≤ 50000 and cost ≤ budget, with margin budget − cost. Otherwise it gets the reason for the first failing bound. |
| CrossCheck.DefaultCertificateRejected | gate-sw/og-pack.py:52-56 | With the encoder's defaults (B = 300000, H = 250000), every certificate is rejected with "Budget 300000 > hard max 250000". |
| CrossCheck.PatchABScenarios | gate-sw/og-validate.py:52-62 | The patch "AB" fails under budget 800 with cost 870. Under budget 1000 it passes with margin 130. |
| CrossCheck.LongParentCertificate | gate-sw/og-pack.py:34 | A 33-byte parent yields a 513-byte certificate, which the validator rejects for its size. |
| CrossCheck.ShortParentCertificate | gate-sw/og-pack.py:34 | A 31-byte parent is silently padded to the certificate of a 32-byte zero parent. |
| CrossCheck.GroupsAgree | gate-core/fw/gate.c:8-16 | The C control, punctuation and digit groups equal the Python rows, and both tables end in zeros. |
| CrossCheck.UpperAgree | gate-core/fw/gate.c:17-21 | The four C upper-case lines are the two Python upper-case rows. |
| CrossCheck.LowerAgree | gate-core/fw/gate.c:22-26 | The four C lower-case lines are the two Python lower-case rows. |
| CrossCheck.TablesAgree | gate-core/fw/gate.c:7-28 | The C table equals the Python table entry for entry. |
| CrossCheck.SumsAgree | gate-core/fw/gate.c:30-43 | The firmware's unbounded sum is the Python cost. |
| CrossCheck.FirmwareCostAgainstPython | gate-core/fw/gate.c:30-43 | The C cost equals the Python cost up to 1,000,000. Above it, the C cost is the Python cost of the first prefix past 1,000,000, at most 1,000,450. |
| CrossCheck.FirmwareReadsEncodedLayout | gate-core/fw/gate.h:17-26 | The firmware reads every field of an encoded certificate back exactly. |
| CrossCheck.VerdictsAgree | gate-core/fw/gate.c:45-71 | Assume the hash matches and the budget is within both hard_max and BUDGET_HARD_MAX. Then Python accepts if and only if the firmware returns 0, and each of -1, -3 and -4 corresponds to the Python reason. |
| CrossCheck.ValidatorsCompared | gate-core/fw/gate.c:45-71 | On every 512-byte certificate: -1 exactly when Python reports a bad magic. A certificate Python accepts gets 0 from the firmware, or -2 when its budget exceeds BUDGET_HARD_MAX. A certificate the firmware passes is accepted by Python, or refused for a hash mismatch or a budget above hard_max. |
| CrossCheck.FirmwareSkipsHashCheck | gate-core/fw/gate.c:45-71 | A certificate for another patch fails Python's hash check but passes the firmware when its bounds hold. |
| CrossCheck.HardMaxDisagreement | gate-core/fw/gate.c:52-54 | The firmware ignores hard_max. A budget between hard_max and 1,000,000 passes the firmware and fails Python. A budget between 1,000,000 and hard_max passes Python and gets -2. |
| CrossCheck.PackThenFirmware | gate-core/fw/gate.c:45-71 | The firmware returns 0 on a packed certificate exactly when budget ≤ 1,000,000, epsilon ≤ 50000 and cost ≤ budget, whatever hard_max says. |
| StreamGate.Gate.constructor | gate-tests/hw/test_gate.py:16-20 | Out of reset, the accumulator is 0, the gate is open and no violation is flagged. |
| StreamGate.Gate.Reset | gate-tests/hw/test_gate.py:41-44 | Reset clears the accumulator and the history, opens the gate and clears the violation. |
| StreamGate.Gate.Step | gate-tests/hw/test_gate.py:22-31 | A valid character adds its table entry. An idle cycle adds nothing. The gate stays open only while the total is within the budget. A violation, once raised, stays raised. |
| StreamGate.Gate.Feed | gate-tests/hw/test_gate.py:49-60 | Feeding a sequence adds its batch cost. A non-empty feed leaves the gate open exactly when it was open and the final total is within the budget. |
| StreamGate.Gate.FeedSession | gate-tests/hw/test_gate.py:41-63 | From reset, the streaming total equals the batch cost. The gate ends open, and violation clear, exactly when the cost is within the budget. |
| StreamGate.BasicEntropyTest | gate-tests/hw/test_gate.py:10-33 | After 'A' under budget 1000, the accumulator reads 450 and the gate is open. |
| StreamGate.GateCloseTest | gate-tests/hw/test_gate.py:35-64 | After 'A' then 'B' under budget 800, the gate is closed and violation is raised. |

## Left out

- File reading and writing, `argparse`, `print` and `sys.exit` are left out. Patch and certificate contents are parameters and results. The diagnostics are the `Validator.Reason` values.
- The parent's hex decoding (`bytes.fromhex(parent_hash.replace('0x', ''))`) is left out. The model takes the decoded bytes, so a malformed hex string raising `ValueError` is not modelled.
- SHA-256 is a function parameter, not an implementation.
- The Ed25519 signature check is absent from the source too, and the signature slot is only zeros.
- The `--verbose` branch of `og-entropy.py` is left out: its float average and its division by zero on an empty file.
- The `from og_entropy import …` in the validator does not resolve against the file name `og-entropy.py`. The model treats it as a call of `compute_lambda_cost`, which is what the code means.
- Firmware.FromWire: it reads the struct as a little-endian target would. How the firmware obtains the struct from a byte buffer is not in the source.
- Firmware.ComputeLambdaCost: the pointer and length pair (and NULL pointers) become a byte sequence.
- The streaming gate's RTL is not part of this model. Only the behaviour the cocotb tests assert is modelled.
  - Clock, timers and signal timing are left out.
  - StreamGate.Gate: the accumulator is unbounded, since its hardware width is not shown.
  - It keeps counting after the gate closes, since the tests do not say otherwise.
  - The budget is sampled as an input on each clock edge.
- `gate-libs/c/open_gate.h`, `gate-libs/python/setup.py` and `gate-libs/python/open_gate/__init__.py` are packaging and context, not part of this model.

## Findings

| source | as written | input that shows it | evidently intended | confidence | as-written member | corrected member |
|---|---|---|---|---|---|---|
| gate-core/fw/gate.h:16-25 | `gate_cert_t` is declared "512 bytes exactly", but its members (4 + 3·4 + 32 + 32 + 64 + 372) add up to 516 bytes. | `sizeof(gate_cert_t)` itself. `validate_cert` reads only `magic`, `budget` and `epsilon`, so no code shown goes past byte 512. A read of `reserved[368..371]`, or a copy of `sizeof(gate_cert_t)` bytes out of a 512-byte buffer, would. | 368 reserved bytes, as the encoder writes, so the struct is 512 bytes. | not executed | GateHeader.DeclaredLayout | GateHeader.WireLayout |
| gate-sw/og-pack.py:34 | The parent hash is slice-assigned into bytes 16..47 with no length check. Python pads a short value and grows the buffer for a long one. | A parent of 33 bytes (66 hex digits) gives a 513-byte certificate. One of 31 bytes is silently zero-padded. | Reject a parent that is not exactly 32 bytes. | not executed | CrossCheck.LongParentCertificate | Packer.PackCertificateChecked |
