# Verified models of FIDESlib

FIDESlib evaluates CKKS ciphertexts on GPUs behind an OpenFHE-like API. This project models five parts of
the repository in Dafny and proves what they are for. Methods follow the source's own steps (classes with
mutable fields, buffers, scan loops) and are proved against small specification functions; lemmas then
prove the properties of those functions. `dafny verify dfyconfig.toml` checks everything.

1. **Level and scale negotiation** (`ScaleLadder`, `CkksCiphertext`, `Circuits`, `FixedAutoDrift`,
   `NumberTheory`, `RnsPolynomial`). A ciphertext is a level, a noise degree, a scale and an exact real
   value. `AdjustScaleAndLevel` with all its branches is proved equal to one closed form; sums, products and
   squares follow, for whole expression trees: they evaluate exactly when the reckoned budget does not run
   out, the message is preserved under FLEXIBLEAUTO and FLEXIBLEAUTOEXT, and under FIXEDAUTO it drifts by
   no more than an explicit bound. On residues modulo a chain of distinct primes the FIXEDAUTO detour is
   exact.
2. **The VRAM caches** (`Recency`, `PlaintextCache`, `CiphertextCache`, `PlaintextContext`,
   `CiphertextContext`, `DeviceHandles`, `DeviceRecords`, `CacheRuns`, `BudgetRuns`, `CiphertextOffload`).
   Recency lists, byte counts, pins, nested holds and both budget enforcers, with offload and reload down to
   the limbs: a parked ciphertext has none on the device, and reading it there without a fetch is wrong. The
   main result is that no run can tell the caches from having none, with the two exceptions named below; and over every
   run the plaintext cache keeps its limit, apart from what is pinned and one plaintext at most.
3. **Encrypted matrix product** (`Slots`, `MatrixProduct`, `BlockedProduct`). Masks and cyclic rotations
   compute the matrix product, and blocks compute the product of matrices of any size.
4. **Image encoders** (`Bits`, `BitSinks`, `Inflate`, `DeflateTokens`, `Adler32`, `ZlibCompress`,
   `StoredFallback`, `Zlib`, `PngFilter`, `WriteContexts`, `TgaRle`, `HdrRle`, with the shared `Options`,
   `Layout`, `Sequences` and `Extrema`). Decoders written from RFC 1950, RFC 1951, RFC 2083 and the TGA and
   Radiance formats are the specifications; every encoder is proved to round trip.
5. **Tiled blur and rotation indices** (`GaussianBlur`, `StillImages`, `TiledBlur`, `RotationIndex`). Tiles blurred by
   cyclic rotations give the clamped reference on the whole image, and rotation indices form a group modulo
   2N.

## Findings

Properties one would expect that the code does not have, each with its exact condition:

- `stbi_zlib_compress` on the empty input returns a stream that does not decode (`Zlib.NothingStored`);
  every other input round trips (`Zlib.Compress`, an if and only if).
- `Decrypt` into an existing plaintext throws when that plaintext is loaded, on a context with devices: the
  test at api/CryptoContext.cpp line 1118 asks for devices where its message speaks of none. The call is
  accepted exactly when the plaintext is not loaded, so its outcome depends on the cache
  (`PlaintextCache.DecryptSeesTheCache`). Runs therefore decrypt into plaintexts that were never used, a
  condition the caller can check (`PlaintextCache.UnusedIsUnloaded`).
- `SetSlots` and `SetLength` change the host encoding only. The device copy stays right exactly when the
  plaintext is not loaded or nothing changes (`PlaintextCache.EncodingSetIsFaithful`); otherwise the change
  shows only after an eviction (`PlaintextCache.StaleEncodingShows`).
- A plaintext made by `Decrypt` has no parent context, so its destructor leaves its device copy registered:
  after a destruction the copy is still there exactly when the plaintext was loaded and has no parent
  (`PlaintextCache.DestroyedStaysRegistered`, with a run in `CacheRuns.DestroyedPlaintextStays`). The caches
  stay consistent nevertheless; the entry without an owner goes like any other.
- `mult` and `multMutable` of a degree-2 ciphertext by itself rescale the shared object and then its copy
  once more; the operands are ready for the kernel exactly in all other calls
  (`CkksCiphertext.Ciphertext.AlignForMult`). `square` does not have the problem.
- The FIXEDAUTO branch that raises a degree-1 operand does not make it resident first, and neither do
  `addMutable`, `subMutable` and `multMutable` before they align. On a parked operand the branch returns
  with the degree unchanged: it is raised exactly when the operand was resident
  (`CiphertextOffload.Ciphertext.AlignToDegreeTwo`). The API always fetches first.
- The TGA writer stores sides modulo 65536; a file decodes to the image exactly when both sides are smaller
  (`TgaRle.WriteTga`, an if and only if).

Where comments and code differ the code is followed: a block in `extractAndLinearizeMatrixBlock` is laid out
with stride `colSize`, not `rowSize` as its comment says; the TGA scan for differing pixels compares each
pixel with the one two before it; the literal stretches of the HDR writer reach 128 bytes.

## Model

| member | source | states |
|---|---|---|
| ScaleLadder.MeetingPoint | src/CKKS/Ciphertext.cpp:2301-2434 | Where two operands meet: the smaller level with the degree found there (the larger degree on ties). If the receiver cannot be adjusted to the operand then the operand can be adjusted to the receiver, so the failure throw cannot be reached, and either way the sum of the adjusted operands is the sum of the original ones. |
| ScaleLadder.AddResult | src/CKKS/Ciphertext.cpp:162-177 | A sum or difference has at least the slots of each operand and exactly those of one of them. |
| ScaleLadder.Product | src/CKKS/Ciphertext.cpp:190-205 | So has a product. |
| ScaleLadder.MultMeetingPoint | src/CKKS/Ciphertext.cpp:781-825 | The two operands of a product, aligned and then both rescaled when they met at degree 2, are valid, of degree 1 and on one level, and multiplying them again changes nothing more: the recursion of `mult` happens at most once. |
| ScaleLadder.RescaledIsAligned | src/CKKS/Ciphertext.cpp:741-763 | Under the FLEXIBLE techniques one rescale of a degree-2 ciphertext is an alignment to degree 1 one level down. |
| ScaleLadder.AlignedInPlace | src/CKKS/Ciphertext.cpp:2426-2433 | Aligning a ciphertext to the level and degree it already has changes nothing. |
| CkksCiphertext.Ciphertext.RescaleInternal | src/CKKS/Ciphertext.cpp:741-763 | Value divided by the top prime, scale by the mod-reduce factor, level and degree one lower; reports whether the source's closing assertion on the scale holds, which it does from any valid degree-2 ciphertext; FLEXIBLE keeps the message. |
| ScaleLadder.ScalarMultipliedMessage | src/CKKS/Ciphertext.cpp:923-939 | A scalar product multiplies the message by the scalar, and a degree-1 ciphertext at the canonical scale ends at the canonical scale of degree 2. |
| CkksCiphertext.Ciphertext.MultScalar | src/CKKS/Ciphertext.cpp:941-956 | The same after a rescale when the degree is 2. |
| ScaleLadder.RaisedIsUndone | src/CKKS/Ciphertext.cpp:2282-2299 | FIXEDAUTO: raised by the target's prime and dropped there, a degree-1 ciphertext is the closed form; rescaled once it has its old value at the canonical scale below the target. |
| CkksCiphertext.Ciphertext.DropToLevel | src/CKKS/Ciphertext.cpp:1348-1365 | Nothing at or below the target; above it, FLEXIBLE aligns to the target with the message kept, FIXEDAUTO drops towers with the value kept. |
| CkksCiphertext.Ciphertext.AdjustScaleAndLevel | src/CKKS/Ciphertext.cpp:2301-2434 | Whatever the technique, levels and degrees: it returns true exactly when the receiver is not below the target, leaves the receiver untouched otherwise, and on success ends at the target level and degree, at its canonical scale, with the value the closed form gives. |
| CkksCiphertext.Ciphertext.AdjustFixedDegrees | src/CKKS/Ciphertext.cpp:2335-2355 | FIXEDAUTO with different degrees: the same closed form, return value and untouched receiver on failure. |
| CkksCiphertext.Ciphertext.AdjustTwoToTwo | src/CKKS/Ciphertext.cpp:2359-2373 | Degree 2 to degree 2: the multiply, rescale and drop maneuver keeps the message and lands on the canonical scale. |
| CkksCiphertext.Ciphertext.AdjustTwoToOne | src/CKKS/Ciphertext.cpp:2374-2396 | Degree 2 to degree 1, by one rescale when one level apart and by the longer maneuver otherwise: the same closed form. |
| CkksCiphertext.Ciphertext.AdjustOneToTwo | src/CKKS/Ciphertext.cpp:2398-2406 | Degree 1 to degree 2: the same closed form. |
| CkksCiphertext.Ciphertext.AdjustOneToOne | src/CKKS/Ciphertext.cpp:2407-2420 | Degree 1 to degree 1: the same closed form. |
| CkksCiphertext.Ciphertext.AdjustForAddOrSub | src/CKKS/Ciphertext.cpp:2436-2461 | Succeeds exactly when the receiver is not below the operand, and then leaves it aligned with the operand. |
| CkksCiphertext.Ciphertext.Add | src/CKKS/Ciphertext.cpp:244-285 | For any two valid ciphertexts, the receiver itself included: level, degree, scale and value of the sum at the meeting point, the smaller budget, as many slots as the operand with more of them, and under FLEXIBLE the sum of the messages; the operand is not modified and the recursion ends after at most one step. |
| CkksCiphertext.Ciphertext.AddMutable | src/CKKS/Ciphertext.cpp:287-320 | The same sum, budget, slots and message; the operand ends aligned with it. |
| CkksCiphertext.Ciphertext.Sub | src/CKKS/Ciphertext.cpp:322-357 | The difference, in that order, at the meeting point, with the smaller budget and the larger slot count. |
| CkksCiphertext.Ciphertext.SubMutable | src/CKKS/Ciphertext.cpp:359-386 | The same difference, budget, slots and message; the operand ends aligned with it. |
| CkksCiphertext.Ciphertext.AlignForMult | src/CKKS/Ciphertext.cpp:792-825 | Both operands brought to one level at degree 1, the second in a fresh copy unless it did not have to change, for every call but one: a degree-2 ciphertext as its own operand leaves the copy at degree 0, one level too low. |
| CkksCiphertext.Ciphertext.Mult | src/CKKS/Ciphertext.cpp:781-863 | The product at the meeting point, of degree 2, with the smaller budget minus one, the larger slot count and under FLEXIBLE the product of the messages, if and only if the operand is not the receiver itself at degree 2. |
| CkksCiphertext.Ciphertext.MultMutable | src/CKKS/Ciphertext.cpp:865-897 | The same product under the same condition; the operand ends aligned and rescaled. |
| CkksCiphertext.Ciphertext.Square | src/CKKS/Ciphertext.cpp:899-921 | The product of the ciphertext with itself, also at degree 2, where it rescales first; one unit of budget is spent and the slots stay. |
| Circuits.OperandOrderIrrelevant | src/CKKS/Ciphertext.cpp:244-285 | Sums and products do not depend on which operand is the receiver. |
| Circuits.SumBudget | src/CKKS/Ciphertext.cpp:244-285 | With budget = level - (degree - 1), a sum is valid and keeps the smaller budget. |
| Circuits.ProductBudget | src/CKKS/Ciphertext.cpp:781-863 | A product has the smaller budget minus one, and is a usable ciphertext exactly when that is not negative. |
| Circuits.SpentProduct | src/CKKS/Ciphertext.cpp:741-763 | A product whose budget is spent has degree 2 on the last tower: it is not usable exactly when the next rescale would leave no tower. |
| Circuits.SumMessage | src/CKKS/Ciphertext.cpp:244-357 | FLEXIBLE: the message of a sum or difference is the sum or difference of the messages. |
| Circuits.ProductMessage | src/CKKS/Ciphertext.cpp:781-863 | FLEXIBLE: the message of a product is the product of the messages. |
| Circuits.CircuitBudget | src/CKKS/Ciphertext.cpp:244-921 | For every expression tree of add, sub, mult and square: it evaluates if and only if the reckoned budget never falls below zero, and the result's budget is the reckoned one. |
| Circuits.BudgetAtLeast | src/CKKS/Ciphertext.cpp:244-921 | A tree costs no more budget than its multiplicative depth. |
| Circuits.DepthSuffices | src/CKKS/Ciphertext.cpp:244-921 | A tree of depth D over inputs of budget at least D always evaluates: no adjustment fails and no level goes below zero. |
| Circuits.DepthDecides | src/CKKS/Ciphertext.cpp:244-921 | Over inputs of one and the same budget a tree evaluates if and only if the budget is at least its multiplicative depth, and the result keeps the difference. |
| Circuits.CircuitMessage | src/CKKS/Ciphertext.cpp:2357-2434 | FLEXIBLE: every tree that evaluates carries exactly the number plain arithmetic gives. |
| FixedAutoDrift.AlignedDrift | src/CKKS/Ciphertext.cpp:2330-2355 | FIXEDAUTO, primes within a factor rho of the booked scale: one alignment moves the message by at most (rho - 1) of itself. |
| FixedAutoDrift.RescaledDrift | src/CKKS/Ciphertext.cpp:741-763 | FIXEDAUTO: so does one rescale. |
| FixedAutoDrift.NearSum | src/CKKS/Ciphertext.cpp:244-357 | FIXEDAUTO: error bound of a sum or difference from the bounds of its operands. |
| FixedAutoDrift.NearTimes | src/CKKS/Ciphertext.cpp:781-863 | FIXEDAUTO: error bound of a product from the bounds of its operands. |
| FixedAutoDrift.CircuitDrift | src/CKKS/Ciphertext.cpp:244-921 | FIXEDAUTO: for every tree that evaluates, the message differs from plain arithmetic by at most an explicit bound in rho, the tree and the inputs. |
| FixedAutoDrift.ExactPrimesNoDrift | src/CKKS/Ciphertext.cpp:2317-2328 | At rho = 1 that bound is zero: FIXEDAUTO is exact when the primes equal the scale. |
| NumberTheory.ModPow | src/Math.cu:23-33 | Square and multiply computes the power modulo p. |
| NumberTheory.Fermat | src/Math.cu:35-38 | Fermat's little theorem, proved from the pigeonhole principle: the reason the power p - 2 is an inverse. |
| NumberTheory.ModInv | src/Math.cu:35-38 | For a prime p and a not divisible by it, the result is below p and is the inverse of a. |
| RnsPolynomial.SwitchModulus | src/CKKS/Rescale.cuh:48-68 | Both branches give the residue, modulo the new prime, of the centered representative. |
| RnsPolynomial.Centered | src/CKKS/Rescale.cuh:48-68 | The representative lies above minus half the modulus and not above half of it, and is the residue or the residue less the modulus. |
| RnsPolynomial.RNSPoly.MultScalar | src/CKKS/RNSPoly.cpp:831-837 | Limb i is multiplied by the i-th residue, for every tower in use, and the level stays. |
| RnsPolynomial.RNSPoly.DropToLevel | src/CKKS/RNSPoly.cpp:907-919 | The towers above the target are gone, the others unchanged; nothing happens below it. |
| RnsPolynomial.RNSPoly.Rescale | src/CKKS/RNSPoly.cpp:395-430 | The top tower is gone and every other residue is (c - [top]) times the inverse of the top prime. |
| RnsPolynomial.RNSPoly.Grow | src/CKKS/RNSPoly.cpp:65-102 | The level rises to the target and limbs exist for it; never shrinks. |
| RnsPolynomial.RNSPoly.Load | src/CKKS/RNSPoly.cpp:971-1007 | Whatever the level was, afterwards the towers are exactly the data. |
| RnsPolynomial.RNSPoly.Store | src/CKKS/RNSPoly.cpp:249-269 | The data are exactly the towers in use, lingering limbs above the level left out. |
| RnsPolynomial.RNSPoly.FreeGPU | src/CKKS/RNSPoly.cpp:921-929 | No limbs, level -1. |
| RnsPolynomial.ScalingRepresents | src/CKKS/Ciphertext.cpp:2282-2299 | Multiplying every tower by the residues of one integer multiplies the integer coefficients the towers stand for. |
| RnsPolynomial.RescaleRounds | src/CKKS/RNSPoly.cpp:395-430 | A rescale leaves the residues of the coefficients divided by the top prime and rounded to nearest. |
| RnsPolynomial.RaiseDropRescaleIsExact | src/CKKS/Ciphertext.cpp:2330-2355 | For any chain of distinct primes: raising to target t by its prime, dropping to t and rescaling tower t away gives back exactly the residues on towers 0 to t - 1. |
| CiphertextOffload.Ciphertext.GetLevel | src/CKKS/Ciphertext.cpp:1367-1375 | The same level whether the limbs are on the device or parked. |
| CiphertextOffload.Ciphertext.Load | src/CKKS/Ciphertext.cpp:510-521 | Limbs, level and metadata become those of the raw ciphertext. |
| CiphertextOffload.Ciphertext.Store | src/CKKS/Ciphertext.cpp:523-545 | The raw ciphertext holds all limbs, the level and the metadata. |
| CiphertextOffload.Ciphertext.Offload | src/CKKS/Ciphertext.cpp:553-575 | The limbs move from the device to the snapshot, as the cache's records say, and nothing observable changes: every limb, the level, degree, scale, key and slots. |
| CiphertextOffload.Ciphertext.Reload | src/CKKS/Ciphertext.cpp:577-586 | The limbs move back, as the cache's records say, and nothing observable changes: offload then reload is the identity. |
| CiphertextOffload.Ciphertext.EnsureResident | src/CKKS/Ciphertext.cpp:547-551 | Resident afterwards, observably unchanged. |
| DeviceRecords.OffloadRoundTrip | src/CKKS/Ciphertext.cpp:553-586 | Offloading a record keeps what it stands for and leaves no limb of either polynomial on the device; reloading then gives the record that reloading gives without it. |
| DeviceRecords.ReadNeedsResidency | src/CKKS/Ciphertext.cpp:281-282 | What a kernel finds through the pointer is the ciphertext if and only if it is not parked. |
| CiphertextOffload.Ciphertext.RaiseDegreeToLevel | src/CKKS/Ciphertext.cpp:2282-2299 | On residues: both polynomials scaled by the target's prime, degree and scale as booked, if the ciphertext is resident; on a parked one nothing observable. |
| CiphertextOffload.Ciphertext.DropTowers | src/CKKS/Ciphertext.cpp:1348-1365 | Both polynomials cut to the target, also when the ciphertext was parked. |
| CiphertextOffload.Ciphertext.RescaleInternal | src/CKKS/Ciphertext.cpp:741-763 | Both polynomials rescaled, level and degree one lower, scale divided, also when the ciphertext was parked. |
| CiphertextOffload.Ciphertext.AlignToDegreeTwo | src/CKKS/Ciphertext.cpp:2345-2352 | The FIXEDAUTO branch for a degree-1 operand above the target: the degree is raised if and only if the receiver was resident; then whatever rescale follows gives back the original towers below the target. A parked receiver comes back cut to the target with its old degree. |
| RotationIndex.AutomorphIndexPrecomp | src/CKKS/RNSPoly.cpp:701-703 | The power of 5, with the exponent wrapped to an unsigned 64-bit word, modulo 2N. |
| RotationIndex.FiveSquaredRepeatedly | src/CKKS/RNSPoly.cpp:701-703 | 5^(2^j) is 1 modulo 2^(j+2), for every j. |
| RotationIndex.IndexIsInverse | src/CKKS/RNSPoly.cpp:701-703 | For every power of two N below 2^64 and every amount, the index is the inverse of 5^amount modulo 2N. |
| RotationIndex.NegativeIndexIsPower | src/CKKS/RNSPoly.cpp:701-703 | A rotation the other way uses the plain power of 5. |
| RotationIndex.IndicesMultiply | src/CKKS/RNSPoly.cpp:701-703 | The indices of two rotations, of either sign, multiply to the index of their sum. |
| RotationIndex.FullTurnIsIdentity | src/CKKS/RNSPoly.cpp:701-703 | Rotating by all N/2 slots changes nothing: the index has period N/2 in the amount. |
| RotationIndex.MapFusedIndices | src/CKKS/RNSPoly.cpp:1244-1256 | The index 2N - 1, which stands for conjugation, is kept; every other amount is replaced by a residue modulo 2N that undoes 5 to that amount, for every power of two N within the word. |
| RotationIndex.FusedIndexFuses | src/CKKS/RNSPoly.cpp:1244-1256 | The same for a single index: the inverse of the power of 5, the plain power for a negative amount, 2N - 1 for itself. |
| RotationIndex.ConjugationIsInvolution | src/CKKS/RNSPoly.cpp:1255 | The index kept for conjugation is its own inverse modulo 2N. |
| Recency.OldestGo | api/CryptoContext.cpp:343-361 | Eviction down to a budget leaves a prefix of the recency list whole and, of the rest, exactly the exempt handles, in order; the newest one evicted was still needed; afterwards the budget is met or only exempt handles are left. |
| Recency.EvictOne | api/CryptoContext.cpp:347-360 | Evicting the last non-exempt handle and starting the scan again gives what the single backward sweep gives. |
| PlaintextCache.BookkeptEvicted | api/CryptoContext.cpp:308-317 | Bookkeeping survives an eviction and the saturating subtraction never clips. |
| Recency.CountedLeave | api/CryptoContext.cpp:313-316 | What leaves the list was part of the sum, so the saturating subtraction is exact. |
| PlaintextCache.ValidOffloaded | api/CryptoContext.cpp:327-341 | Offloading keeps list, sum, pins, registry and owners consistent, also for an entry that outlived its owner. |
| PlaintextCache.ValidEnforced | api/CryptoContext.cpp:343-361 | So does enforcing the budget, and device copies stay equal to the host encodings. |
| PlaintextCache.EnforcedTakesTheOldest | api/CryptoContext.cpp:343-361 | Strictly the least recently used that are neither pinned nor protected go, no more than needed; it ends within the budget or with only those left. |
| PlaintextCache.EnforcedApplies | api/CryptoContext.cpp:343-361 | Enforcing does nothing without a limit or under a hold; otherwise a prefix of the recency list stays, of the rest only what is pinned or protected, the last to go was still needed, and the limit is met unless only such are left. |
| PlaintextCache.ClosingApplies | api/CryptoContext.hpp:530-539 | Closing the outermost hold enforces the limit in just that sense; closing another hold only counts down. |
| PlaintextCache.NewBudgetApplies | api/CryptoContext.cpp:259-263 | So does setting a new limit. |
| PlaintextCache.LoadingApplies | api/CryptoContext.cpp:600-624 | So does a load of a plaintext that was not loaded, which itself is registered first and spared. |
| PlaintextCache.PinnedStays | api/CryptoContext.cpp:288-300 | After pinning, the plaintext is loaded, registered and pinned, whatever the limit. |
| PlaintextCache.UnpinningApplies | api/CryptoContext.cpp:288-300 | After unpinning, its handle is not pinned and the limit is enforced. |
| BudgetRuns.LimitIsKept | api/CryptoContext.hpp:101-105 | Over every run of loads, operations, pins, limit changes, offloads, decryptions and destructions: after each event no hold is open, and the plaintext cache is within its limit unless everything registered is pinned apart from at most one plaintext. |
| BudgetRuns.LimitIsKeptFromTheStart | api/CryptoContext.hpp:416-484 | In particular in every run of a fresh context. |
| BudgetRuns.OperateSettles | api/CryptoContext.hpp:530-539 | An operation, however many plaintexts it keeps resident while it computes, leaves the cache so. |
| PlaintextCache.ExemptSurvives | api/CryptoContext.cpp:343-361 | What is protected or pinned stays registered, with contents and owner as they were. |
| PlaintextCache.ValidLoaded | api/CryptoContext.cpp:600-624 | After a load the plaintext is loaded with its encoding on the device, whatever the budget made leave. |
| PlaintextCache.HoldKeepsRegistry | api/CryptoContext.hpp:517-543 | Under an open hold a load only adds to the registry. |
| PlaintextCache.InnerHoldKeeps | api/CryptoContext.hpp:523-539 | Opening a hold, or closing one that is not the outermost, evicts nothing and counts one up or down. |
| PlaintextCache.GoodHoldClosed | api/CryptoContext.hpp:530-539 | Closing a hold keeps the invariant and every encoding. |
| PlaintextCache.GoodAllOffloaded | api/CryptoContext.cpp:273-286 | Exactly the pinned plaintexts remain; no encoding changes. |
| PlaintextCache.GoodDestroyed | api/Plaintext.cpp:13-18 | The destructor removes the plaintext and keeps the caches consistent, also for a decrypted plaintext, whose device copy it leaves behind. |
| PlaintextCache.DestroyedStaysRegistered | api/Plaintext.cpp:13-18 | After its destruction a plaintext's device copy is still registered and tracked if and only if it was loaded and has no parent context. |
| CacheRuns.DestroyedPlaintextStays | api/CryptoContext.cpp:1128-1133 | A run that does it: a decrypted plaintext, loaded and destroyed, leaves its encoding on the device and its bytes in the count. |
| PlaintextCache.GoodDecrypted | api/CryptoContext.cpp:1116-1127 | Decrypting into a plaintext that is not loaded replaces its contents; the invariant holds either way. |
| PlaintextCache.DecryptSeesTheCache | api/CryptoContext.cpp:1118-1120 | Decrypting into a loaded plaintext is refused, and the same call after an eviction is accepted: here the cache is visible. |
| PlaintextCache.UnusedIsUnloaded | api/CryptoContext.cpp:600-624 | The condition a caller can check: a plaintext that was never loaded, pinned or an operand is not loaded. |
| PlaintextCache.EncodingSetIsFaithful | api/Plaintext.cpp:22-34 | Changing a host encoding keeps device copies right if and only if the plaintext is not loaded or nothing changes. |
| PlaintextCache.StaleEncodingShows | api/Plaintext.cpp:22-34 | On a loaded plaintext the change is seen after an eviction and not before. |
| CiphertextCache.ValidFetched | api/CryptoContext.cpp:2690-2708 | A fetch keeps the invariant and all contents, and the ciphertext is resident afterwards. |
| CiphertextCache.FetchedStays | api/CryptoContext.cpp:2690-2708 | A fetch parks nothing that was resident. |
| CiphertextCache.GoodFetched | api/CryptoContext.cpp:2690-2708 | After a fetch the pointer reads what the ciphertext stands for, parked before or not; an unknown handle changes nothing. |
| CiphertextCache.ValidOffloaded | api/CryptoContext.cpp:662-675 | Parking keeps the invariant and what is seen of every ciphertext. |
| CiphertextCache.ValidEnforced | api/CryptoContext.cpp:478-495 | So does enforcing the budget. |
| CiphertextCache.EnforcedTakesTheOldest | api/CryptoContext.cpp:478-495 | Strictly the least recently used that are not pinned, protected or extended are parked, no more than needed; it ends within the budget or with only those left. |
| CiphertextCache.EnforcedApplies | api/CryptoContext.cpp:478-495 | Enforcing does nothing without a limit; otherwise a prefix of the recency list stays resident, of the rest only what is pinned, protected or extended, the last to be parked was still needed, and the limit is met unless only such are resident. |
| CiphertextCache.NewBudgetApplies | api/CryptoContext.cpp:365-369 | Setting a new limit enforces it in that sense. |
| CiphertextCache.LoadingApplies | api/CryptoContext.cpp:626-660 | So does a load, which leaves the loaded ciphertext resident. |
| CiphertextCache.PinnedStays | api/CryptoContext.cpp:390-403 | After pinning, the ciphertext is loaded, resident and pinned. |
| CiphertextCache.UnpinningApplies | api/CryptoContext.cpp:390-403 | After unpinning, its handle is not pinned and the limit is enforced. |
| CiphertextCache.FetchMayExceed | api/CryptoContext.hpp:139-143 | A fetch enforces nothing: it stays within the limit exactly when the fetched ciphertext fits beside the other resident ones. |
| CiphertextCache.FetchedFirst | api/CryptoContext.cpp:424-440 | A fetched ciphertext is first in the recency list, resident with its new size, and the others keep their order. |
| CiphertextCache.AllOffloadedLeaves | api/CryptoContext.cpp:379-388 | Of the resident ciphertexts exactly the pinned and the extended stay resident. |
| CiphertextCache.ExemptStaysResident | api/CryptoContext.cpp:452-495 | What is protected, pinned or in the extended basis stays resident and unchanged. |
| CiphertextCache.BookkeptTouched | api/CryptoContext.cpp:424-440 | Re-reading a size keeps the byte count the sum of the resident entries, without clipping. |
| CiphertextCache.BookkeptMarked | api/CryptoContext.cpp:442-450 | So does marking a ciphertext offloaded. |
| CiphertextCache.GoodLoaded | api/CryptoContext.cpp:626-660 | A load keeps the invariant and shows nothing but that the ciphertext is loaded. |
| CiphertextCache.GoodCloned | api/Ciphertext.cpp:25-42 | A copy shows what its source shows and nothing else changes. |
| CiphertextCache.GoodUnloaded | api/CryptoContext.cpp:716-731 | Unloading keeps the contents, and the handle is neither registered nor tracked afterwards. |
| CiphertextCache.GoodDestroyed | api/Ciphertext.cpp:10-15 | The destructor removes the ciphertext, and its handle is neither registered nor tracked afterwards. |
| CacheRuns.GoodFetchAll | api/CryptoContext.cpp:2690-2708 | After an operation has fetched its ciphertexts, all of them are resident together with whatever was. |
| CacheRuns.ReadsNeedResidency | api/CryptoContext.cpp:2695-2702 | Reading a loaded ciphertext through its pointer gives its contents if and only if it is resident. |
| CacheRuns.LoadingMayPark | api/CryptoContext.cpp:637-643 | Why operations fetch: loading a second operand parks the first when the budget asks for it, and reading the first without a fetch is then wrong. |
| CacheRuns.ReadingMatches | api/Ciphertext.cpp:56-75 | A getter or a decryption reads the contents wherever the limbs are, with no load before it. |
| CacheRuns.GoodStoreAll | api/CryptoContext.cpp:2690-2708 | The results of an operation reach all its operands, none of which has been parked since it was fetched. |
| CacheRuns.GoodUseAll | api/CryptoContext.cpp:2568-2574 | After an operation has loaded and fetched its plaintexts in turn, all of them are on the device with their encodings. |
| CacheRuns.NothingLeavesUnderAHold | api/CryptoContext.hpp:517-543 | However operations nest, nothing registered under an open hold leaves or changes before the outermost one closes. |
| CacheRuns.WorkingMatches | api/CryptoContext.cpp:2551-2581 | When an operation computes, everything it fetched is present and reads as the objects say. |
| CacheRuns.StepMatches | api/CryptoContext.cpp:259-732 | Every event keeps both caches consistent, shows what a context without caches shows, and reads the same contents through the pointers, which for a parked ciphertext would give no limbs. |
| CacheRuns.CachesAreInvisible | api/CryptoContext.cpp:259-732 | Any run of loads, fetches, operations storing into all operands, pins, budget changes, offloads, reloads, copies and destructions reads exactly what it reads without caches. |
| CacheRuns.ReachableStatesAreGood | api/CryptoContext.cpp:259-732 | Every reachable state is consistent: duplicate-free lists of exactly the resident handles, byte counts equal to the sums, pins tracked, live plaintexts loaded exactly while registered. |
| CacheRuns.BudgetsDoNotMatter | api/CryptoContext.cpp:259-369 | Two contexts showing the same objects read the same in every run, whatever their budgets, pins and residents. |
| CacheRuns.FreshContext | api/CryptoContext.hpp:416-484 | An empty context is a legal start of all this. |
| PlaintextCache.BookkeptRegistered | api/CryptoContext.cpp:302-306 | A new handle is tracked as the most recent one with its bytes; the list stays duplicate-free and the byte count the sum of the entries. |
| Recency.TouchedOrder | api/CryptoContext.cpp:319-325 | The touched handle is first, the others keep their order, nothing appears twice or gets lost. |
| PlaintextCache.ThroughOffloaded | api/CryptoContext.cpp:2710-2719 | Evicting a device plaintext whose owner goes at once leaves what a full offload leaves: all invariants and every other encoding. |
| PlaintextCache.GoodOffloaded | api/CryptoContext.cpp:327-341 | No encoding changes, the handle is gone, and a living owner is marked unloaded. |
| PlaintextContext.Context.FindVictim | api/CryptoContext.cpp:348-354 | The last handle that is neither protected nor pinned, 0 exactly when there is none. |
| PlaintextContext.Context.EnforcePlaintextBudget | api/CryptoContext.cpp:343-361 | The rescanning loop terminates and does what the one backward sweep does: least recently used first, no more than needed, pinned and protected ones spared; nothing under a hold or without a limit. |
| PlaintextContext.Context.SetPlaintextCache | api/CryptoContext.cpp:259-263 | The new limit is met afterwards or only pinned plaintexts are left, the least recently used having gone. |
| PlaintextContext.Context.OffloadPlaintexts | api/CryptoContext.cpp:273-286 | All but the pinned offloaded, whatever order the map yields: exactly the pinned handles remain. |
| PlaintextContext.Context.OpenHold | api/CryptoContext.hpp:526-528 | One level deeper. |
| PlaintextContext.Context.CloseHold | api/CryptoContext.hpp:530-539 | One level up; at the outermost the limit is enforced: it is met or everything left is pinned, and the least recently used have gone. |
| PlaintextCache.ValidRegistered | api/CryptoContext.cpp:2647-2657 | The counter's handle is new, so registering under it keeps owners, registry and books consistent. |
| PlaintextContext.Context.LoadPlaintext | api/CryptoContext.cpp:600-624 | Nothing if loaded; otherwise registered, tracked as most recent and the limit enforced with the new one spared. |
| PlaintextContext.Context.GetDevicePlaintext | api/CryptoContext.cpp:2678-2688 | The registered contents, the handle first in the recency list and the others in order; an error for an unknown handle. |
| PlaintextContext.Context.PinPlaintext | api/CryptoContext.cpp:288-300 | Afterwards loaded, registered and pinned; or unpinned with the limit enforced. |
| PlaintextContext.Context.Make | api/CryptoContext.cpp:1003-1019 | A new unloaded plaintext, with or without a parent context. |
| PlaintextContext.Context.DecryptInto | api/CryptoContext.cpp:1116-1127 | Accepted exactly when the plaintext is not loaded; a refusal changes nothing. |
| PlaintextContext.Context.Destroy | api/Plaintext.cpp:13-18 | The device copy goes only with a plaintext that knows its context. |
| CiphertextCache.BookkeptRegistered | api/CryptoContext.cpp:405-409 | A new handle is tracked as resident and most recent with its bytes; the list stays duplicate-free and exactly the resident ones, and the byte count their sum. |
| CiphertextCache.CountedUntracked | api/CryptoContext.cpp:411-422 | A resident ciphertext takes exactly its bytes with it, unclipped; a parked one takes none; list and sum stay in step. |
| CiphertextContext.Context.OffloadCiphertextForCache | api/CryptoContext.cpp:452-476 | Parks what is resident, registered and not extended; refuses everything else without a change. |
| CiphertextContext.Context.EnforceCiphertextBudget | api/CryptoContext.cpp:478-495 | The pass over the snapshot does what the backward sweep does: least recently used first, no more than needed, pinned, protected and extended ones spared. |
| CiphertextContext.Context.SetCiphertextCache | api/CryptoContext.cpp:365-369 | The new limit is met afterwards or only pinned and extended ciphertexts are resident. |
| CiphertextContext.Context.OffloadCiphertexts | api/CryptoContext.cpp:379-388 | Exactly the pinned and the extended stay resident. |
| CiphertextCache.RegisteredAlone | api/CryptoContext.cpp:2659-2676 | Registering under the counter's handle keeps all invariants, evicts nothing and is seen by no object. |
| CiphertextContext.Context.GetDeviceCiphertext | api/CryptoContext.cpp:2690-2708 | The contents, resident afterwards and first in the recency list; an error for an unknown handle. |
| CiphertextContext.Context.OffloadCiphertext | api/CryptoContext.cpp:662-675 | Parked; nothing for an unknown handle. |
| CiphertextContext.Context.ReloadCiphertext | api/CryptoContext.cpp:677-692 | Brought back and touched exactly when it was parked. |
| CiphertextContext.Context.LoadCiphertext | api/CryptoContext.cpp:626-660 | Reloaded or uploaded, then the limit enforced with it spared; it is resident afterwards. |
| CiphertextCache.GoodEvicted | api/CryptoContext.cpp:2721-2728 | Evicting the device side of an object that is unloaded or dropped keeps all invariants and what every other object shows. |
| CiphertextContext.Context.PinCiphertext | api/CryptoContext.cpp:390-403 | Afterwards loaded, resident and pinned; or unpinned with the limit enforced. |
| CiphertextContext.Context.Clone | api/Ciphertext.cpp:25-42 | A second object with its own device copy if the source had one, which shows what the source shows; nothing else changes. |
| CiphertextContext.Context.CopyDeviceCiphertext | api/CryptoContext.cpp:2623-2643 | The source is fetched and its contents registered again under a new handle. |
| CiphertextContext.Context.UnloadCiphertext | api/CryptoContext.cpp:716-731 | Host copy brought up to date; the handle is neither registered nor tracked. |
| CiphertextContext.Context.Destroy | api/Ciphertext.cpp:10-15 | The object and its handle are gone. |
| MatrixProduct.GetDiagonals | examples/bert-tiny/src/MatMul.cpp:283-300 | Diagonal j holds entry (i, i + j) with the column wrapped, for any matrix; none for an empty one. |
| MatrixProduct.GetSigmaPermutationMatrix | examples/bert-tiny/src/MatMul.cpp:302-314 | One in row (i, j) exactly at column (i, i + j), wrapped. |
| MatrixProduct.GetTauPermutationMatrix | examples/bert-tiny/src/MatMul.cpp:316-327 | One in row (i, j) exactly at column (i + j, j), wrapped. |
| MatrixProduct.GetPhiDiagonals | examples/bert-tiny/src/MatMul.cpp:329-344 | Two masks that split the slots by whether a column shift stays in the row. |
| MatrixProduct.SigmaDiagonalsUsed | examples/bert-tiny/src/MatMul.cpp:360-367 | A sigma diagonal is nonzero if and only if its number is below d or above d*d - d: exactly those the product visits. |
| MatrixProduct.TauAt | examples/bert-tiny/src/MatMul.cpp:368-371 | In the i-th encoded tau diagonal slot p is one if and only if p lies in column i. |
| MatrixProduct.GetMatrixMatrixProductPrecomputations | examples/bert-tiny/src/MatMul.cpp:347-388 | Every diagonal and mask the product reads is encoded, with the right contents. |
| MatrixProduct.FirstTransform | examples/bert-tiny/src/MatMul.cpp:396-405 | The masked rotations leave in slot (a, b) entry (a, a + b) of the first matrix. |
| MatrixProduct.SecondTransform | examples/bert-tiny/src/MatMul.cpp:408-413 | The masked rotations leave in slot (a, b) entry (a + b, b) of the second matrix. |
| MatrixProduct.PhiReads | examples/bert-tiny/src/MatMul.cpp:423-428 | Two masked rotations together shift the columns cyclically by i. |
| MatrixProduct.PsiReads | examples/bert-tiny/src/MatMul.cpp:430 | One rotation shifts the rows cyclically by i. |
| MatrixProduct.AllSummands | examples/bert-tiny/src/MatMul.cpp:420-435 | The d slotwise products are the d summands of each entry in a cyclic order. |
| MatrixProduct.MatrixMatrixProductSquare | examples/bert-tiny/src/MatMul.cpp:390-436 | For every d and any two row-major d by d matrices, every slot of the result is the entry of the matrix product. |
| BlockedProduct.ClearMM | examples/bert-tiny/src/MatMul.cpp:724-739 | The triple loop: every entry is the sum of products along row and column. |
| BlockedProduct.ExtractAndLinearizeMatrixBlock | examples/bert-tiny/src/MatMul.cpp:501-526 | The entries from the offset on, row by row, zero outside the matrix and after the block; an error exactly for a zero block size. |
| BlockedProduct.ExtractAndLinearizeMatrix | examples/bert-tiny/src/MatMul.cpp:528-553 | All blocks of the padded matrix, none for an empty one, an error exactly when the source throws. |
| BlockedProduct.ConvertToLargeMatrix | examples/bert-tiny/src/MatMul.cpp:609-650 | Entry (i, j) comes from the block that covers it; empty for no blocks. |
| BlockedProduct.ReassemblingPads | examples/bert-tiny/src/MatMul.cpp:609-650 | Putting the blocks of a matrix together again gives the matrix filled up with zeros. |
| BlockedProduct.MultiplyBlocks | examples/bert-tiny/src/MatMul.cpp:439-466 | Every block of the result is the sum over k of the products of block (i, k) with block (k, j). |
| BlockedProduct.SumByBlocks | examples/bert-tiny/src/MatMul.cpp:453-457 | A sum is the sum of the sums of its equal parts. |
| BlockedProduct.BlockedIsPlain | examples/bert-tiny/src/MatMul.cpp:439-466 | An entry of the blocked product is the entry of the plain product of the reassembled matrices. |
| BlockedProduct.PaddingAddsNothing | examples/bert-tiny/src/MatMul.cpp:501-553 | Zeros beyond the original matrices add nothing to an inner product. |
| BlockedProduct.MultiplyThroughBlocks | examples/bert-tiny/src/MatMul.cpp:439-740 | For matrices of any fitting sizes: cutting, multiplying encrypted blocks and reassembling gives the plain product of the padded matrices, and on the original rows and columns the product of the originals. |
| Bits.OrIsSum | examples/hpca/src/stb_image_write.h:880-881 | On 32-bit words, with fewer than 8 bits pending and a code of at most 13, or-ing the shifted code in is a sum and loses no bit. |
| Bits.LsbJoin | examples/hpca/src/stb_image_write.h:880-881 | A field placed above the pending bits follows them in the bit stream. |
| Bits.BytesRoundTrip | examples/hpca/src/stb_image_write.h:839-847 | The bits of a byte string determine it. |
| Bits.ShrIsQuotient | examples/hpca/src/stb_image_write.h:839-847 | Shifting right by k bits is dividing by 2 to the k, rounding down. |
| Bits.ByteBitsAt | examples/hpca/src/stb_image_write.h:839-847 | Bit j of byte i, counted from the least significant, is bit 8i + j of the stream, as section 3.1.1 of RFC 1951 has it. |
| Bits.MsbIsReversedLsb | examples/hpca/src/stb_image_write.h:849-857 | A Huffman code goes out in the opposite order of every other field. |
| DeflateTokens.DecodeHuff | examples/hpca/src/stb_image_write.h:884-888 | Each of the 288 fixed codes of section 3.2.6 of RFC 1951, written most significant bit first, decodes to its own symbol whatever follows. |
| DeflateTokens.DecodeMatchBits | examples/hpca/src/stb_image_write.h:957-966 | A match's length code, extra bits, distance code and extra bits decode to its length and distance. |
| DeflateTokens.CopyReproduces | examples/hpca/src/stb_image_write.h:859-865 | Where two stretches agree, copying from the distance back reproduces the data, even when they overlap. |
| DeflateTokens.InflateTokens | examples/hpca/src/stb_image_write.h:922-975 | Inflating the codes of any tokens that expand to the data gives the data and leaves what follows. |
| BitSinks.BitRev | examples/hpca/src/stb_image_write.h:849-857 | The result's bits are the code's in reverse order. |
| BitSinks.BitSink.Push | examples/hpca/src/stb_image_write.h:818-837 | One byte appended; the buffer never fills up and only grows when it is about to. |
| BitSinks.BitSink.Flush | examples/hpca/src/stb_image_write.h:839-847 | Whole bytes move to the buffer and the bit stream written so far is unchanged. |
| BitSinks.BitSink.Add | examples/hpca/src/stb_image_write.h:880-881 | The stream grows by the field, least significant bit first, and fewer than eight bits stay pending. |
| BitSinks.BitSink.HuffAdd | examples/hpca/src/stb_image_write.h:882 | The stream grows by the code, most significant bit first. |
| BitSinks.BitSink.Huff | examples/hpca/src/stb_image_write.h:884-888 | The stream grows by the fixed code of the symbol. |
| BitSinks.BitSink.HuffB | examples/hpca/src/stb_image_write.h:889 | The stream grows by the fixed code of the byte. |
| BitSinks.BitSink.Pad | examples/hpca/src/stb_image_write.h:976-978 | Fewer than eight padding bits to a byte boundary. |
| BitSinks.BitSink.AppendRaw | examples/hpca/src/stb_image_write.h:995-996 | The copy past the end of the used part fits the buffer already allocated. |
| Adler32.SumChunk | examples/hpca/src/stb_image_write.h:1007 | 5552 unreduced additions never wrap a 32-bit word and agree with the per-byte definition modulo 65521. |
| Adler32.ChunkFits | examples/hpca/src/stb_image_write.h:1003-1011 | The largest sums a chunk can reach fit 32 bits. |
| Adler32.Checksum | examples/hpca/src/stb_image_write.h:1001-1011 | For every input the two sums are those of section 2.2 of RFC 1950, also in closed form. |
| Adler32.SumsInClosedForm | examples/hpca/src/stb_image_write.h:1001-1011 | The sums of section 2.2 of RFC 1950 in closed form: one more than the sum of the bytes, and the length plus the sum of the bytes each times the number of bytes from it on, modulo 65521. |
| ZlibCompress.LengthTable | examples/hpca/src/stb_image_write.h:901-902 | The encoder's length table is the one of section 3.2.5 of RFC 1951 and each range fits its extra bits. |
| ZlibCompress.DistanceTable | examples/hpca/src/stb_image_write.h:903-904 | The same for distances. |
| ZlibCompress.ExtraBits | examples/hpca/src/stb_image_write.h:901-904 | The numbers of extra bits are those listed in section 3.2.5 of RFC 1951. |
| ZlibCompress.CountMatch | examples/hpca/src/stb_image_write.h:859-865 | The exact length of the common prefix, at most the limit and 258. |
| ZlibCompress.FindMatch | examples/hpca/src/stb_image_write.h:924-933 | The longest match of at least three bytes among the candidates inside the window, the latest on ties; none exactly when no candidate agrees for three bytes. |
| ZlibCompress.BetterAtNext | examples/hpca/src/stb_image_write.h:941-955 | True if and only if some candidate of the next position, inside its window, agrees for more bytes than the match in hand. |
| ZlibCompress.ChooseMatch | examples/hpca/src/stb_image_write.h:924-955 | The hash list of the position, halved if it was full, gets the position appended and no other list changes; the match is the longest one unless the next position improves on it. |
| ZlibCompress.LengthCode | examples/hpca/src/stb_image_write.h:960 | The code whose range contains the length. |
| ZlibCompress.DistanceCode | examples/hpca/src/stb_image_write.h:963 | The code whose range contains the distance. |
| ZlibCompress.EmitMatch | examples/hpca/src/stb_image_write.h:957-966 | The stream grows by the codes of exactly this length and distance. |
| ZlibCompress.DeflateOne | examples/hpca/src/stb_image_write.h:922-971 | One round writes one token for the bytes it passes and makes progress. |
| ZlibCompress.DeflateFixed | examples/hpca/src/stb_image_write.h:918-975 | The tokens written expand, from nothing, to the whole input, and the end-of-block symbol follows. |
| StoredFallback.StoredLength | examples/hpca/src/stb_image_write.h:985-999 | Size of the stored form: five bytes per block of at most 32767 bytes. |
| StoredFallback.InflateStoredBlocks | examples/hpca/src/stb_image_write.h:985-999 | For every non-empty input a decoder written from section 3.2.4 of RFC 1951 recovers it from the stored blocks. |
| Zlib.FixedDecodes | examples/hpca/src/stb_image_write.h:913-978 | A header, one fixed-Huffman block of tokens for the data, padding and the checksum decode to the data. |
| Zlib.StoredDecodes | examples/hpca/src/stb_image_write.h:985-1016 | A header, the stored blocks of non-empty data and the checksum decode to the data. |
| Zlib.NothingStored | examples/hpca/src/stb_image_write.h:985-999 | For the empty input the fallback writes no block, and what it returns does not decode. |
| Zlib.StoreBlocks | examples/hpca/src/stb_image_write.h:985-999 | The loop appends exactly the stored blocks, within the buffer already allocated. |
| Zlib.StoreBlock | examples/hpca/src/stb_image_write.h:990-996 | Header, length, complemented length and bytes of one block, without growing the buffer. |
| Zlib.WriteFixed | examples/hpca/src/stb_image_write.h:913-978 | Two header bytes and one padded fixed-Huffman block whose tokens expand to the input. |
| Zlib.Compress | examples/hpca/src/stb_image_write.h:895-1022 | For every byte string and every quality the result decodes to the input if and only if the input is not empty; it starts with bytes 0x78 and 0x5e, its last four bytes, most significant first, are the checksum, and its size is bounded by the stored form. |
| Zlib.PushChecksum | examples/hpca/src/stb_image_write.h:1001-1016 | Four bytes that, read most significant first, are the second sum of Adler-32 times 65536 plus the first. |
| Zlib.AdlerNumber | examples/hpca/src/stb_image_write.h:1012-1015 | The decoder reads the checksum as a number, most significant byte first, and the bytes written are that number. |
| PngFilter.Paeth | examples/hpca/src/stb_image_write.h:1083-1089 | The neighbour nearest to left + above - upper left, ties to left, then above. |
| PngFilter.Average | examples/hpca/src/stb_image_write.h:1121 | The mean of left and above, rounded down. |
| PngFilter.FilteredByRules | examples/hpca/src/stb_image_write.h:1107-1125 | What the decoder undoes is what section 6 of RFC 2083 says: type by type, the byte itself, or its difference in eight bits from the left byte, the one above, their mean rounded down, or the Paeth neighbour. |
| PngFilter.ReconstructUndoes | examples/hpca/src/stb_image_write.h:1107-1125 | Undoing any of the five filters byte by byte, as in section 6 of RFC 2083, gives back the row. |
| PngFilter.EncodePngLine | examples/hpca/src/stb_image_write.h:1092-1126 | Byte by byte the line follows the rule of the requested type, also through the first-row mapping and bottom up, and so can be undone. |
| PngFilter.Estimate | examples/hpca/src/stb_image_write.h:1157-1160 | The sum of the absolute values of the line's signed bytes. |
| PngFilter.SumAbsSplits | examples/hpca/src/stb_image_write.h:1157-1160 | The sum takes every byte once, each at its distance from zero as a signed byte. |
| PngFilter.EstimateFilter | examples/hpca/src/stb_image_write.h:1151-1170 | The line is left filtered by the first type of least cost. |
| PngFilter.UnfilterLines | examples/hpca/src/stb_image_write.h:1146-1174 | For every image and every choice of filters, unfiltering the data gives the rows. |
| PngFilter.FilterRow | examples/hpca/src/stb_image_write.h:1146-1170 | The forced type, or the cheapest, and the row filtered by it. |
| PngFilter.FilterImage | examples/hpca/src/stb_image_write.h:1140-1174 | Unfiltering the buffer gives the image's rows; each row carries the forced or the cheapest type. |
| PngFilter.ImageData | examples/hpca/src/stb_image_write.h:1128-1178 | Inflating and unfiltering the compressed data of any image with a row gives its rows in the order written. |
| WriteContexts.WriteContext.Flush | examples/hpca/src/stb_image_write.h:386-392 | Everything written so far has left the buffer, in order. |
| WriteContexts.WriteContext.Write1 | examples/hpca/src/stb_image_write.h:399-404 | One byte more, in order, within the 64-byte buffer. |
| WriteContexts.WriteContext.Write3 | examples/hpca/src/stb_image_write.h:406-416 | Three bytes more, in order, within the 64-byte buffer. |
| TgaRle.ScanPacket | examples/hpca/src/stb_image_write.h:563-591 | Between 1 and 128 pixels inside the row; a run is at least two equal pixels and as long as it can be. |
| TgaRle.DecodeLine | examples/hpca/src/stb_image_write.h:559-605 | Any packets that cover a row decode to it and leave what follows. |
| TgaRle.DecodeLines | examples/hpca/src/stb_image_write.h:559-605 | All rows are decoded, in file order, to the last byte. |
| TgaRle.WritePixel | examples/hpca/src/stb_image_write.h:418-449 | Colour bytes reversed, alpha last. |
| TgaRle.WriteRow | examples/hpca/src/stb_image_write.h:563-604 | The packets written cover the row exactly, every length in range, every round making progress. |
| TgaRle.WriteBody | examples/hpca/src/stb_image_write.h:550-605 | Every row once, bottom up or as flipped. |
| TgaRle.ShownAt | examples/hpca/src/stb_image_write.h:550-566 | Component c of the pixel shown at column i of row r is byte (row * x + i) * comp + c of the data, the rows counted from the other end when flipped. |
| TgaRle.WriteTga | examples/hpca/src/stb_image_write.h:532-608 | For any pixels, 1 to 4 components and either orientation the file decodes to the image if and only if both sides are below 65536; the header bytes are stated one by one. |
| HdrRle.WriteRunData | examples/hpca/src/stb_image_write.h:656-662 | A run of 1 to 127 equal bytes, its length byte in range. |
| HdrRle.WriteDumpData | examples/hpca/src/stb_image_write.h:664-670 | A literal stretch of 1 to 128 bytes. |
| HdrRle.FindRun | examples/hpca/src/stb_image_write.h:727-735 | The first position where three equal bytes start, the end if there is none. |
| HdrRle.EndOfRun | examples/hpca/src/stb_image_write.h:745-747 | The first position after the run, or the end. |
| HdrRle.WriteComponent | examples/hpca/src/stb_image_write.h:725-756 | The stretches written make up the component exactly and every round makes progress. |
| HdrRle.DecodeWhole | examples/hpca/src/stb_image_write.h:721-757 | Any stretches making up a component decode to it and leave what follows. |
| HdrRle.DecodeAllPlanes | examples/hpca/src/stb_image_write.h:721-757 | The four components, one after the other. |
| HdrRle.DecodeFlatBytes | examples/hpca/src/stb_image_write.h:682-697 | The uncompressed form of widths below 8 or from 32768 on. |
| HdrRle.FlatAt | examples/hpca/src/stb_image_write.h:682-697 | Pixel k takes bytes 4k to 4k + 3: red, green, blue, exponent. |
| HdrRle.DecodeLine | examples/hpca/src/stb_image_write.h:672-759 | For every width, what the writer puts out decodes to the scan line and leaves what follows. |
| HdrRle.FillScratch | examples/hpca/src/stb_image_write.h:700-717 | The four planes of the scratch buffer are the four components. |
| HdrRle.WriteScanline | examples/hpca/src/stb_image_write.h:672-759 | The bytes written are the form that decodes; run-length encoded ones start with 2, 2 and the width, high byte first. |
| GaussianBlur.GenerateRotationIndices | examples/hpca/solutions/05_gaussian.cpp:143-161 | Rotation t of either list is by +1, -1, +2, -2 and so on, times 1 or the tile width, two for each distance up to half the kernel. |
| GaussianBlur.FoldedIsWeighted | examples/hpca/solutions/05_gaussian.cpp:101-109 | For an odd symmetric kernel, pairing neighbours under one weight gives the weighted sum over the window. |
| GaussianBlur.RotationPass | examples/hpca/solutions/05_gaussian.cpp:92-109 | One pass leaves in every slot the weighted sum of its cyclic neighbours. |
| GaussianBlur.FheGaussianBlur | examples/hpca/solutions/05_gaussian.cpp:83-127 | The horizontal pass, then the vertical one on its result. |
| GaussianBlur.ClampIsNearest | examples/hpca/solutions/05_gaussian.cpp:240-241 | The clamped coordinate lies in the image and every other coordinate of the image is farther from the one asked for. |
| GaussianBlur.ApplyHorizontalConv | examples/hpca/solutions/05_gaussian.cpp:277-294 | Every pixel is the weighted sum along its row, clamped at the borders. |
| GaussianBlur.ApplyVerticalConv | examples/hpca/solutions/05_gaussian.cpp:299-316 | Every pixel is the weighted sum along its column, clamped at the borders. |
| GaussianBlur.FirstPass | examples/hpca/solutions/05_gaussian.cpp:92-109 | After the first pass the inner columns of a tile hold the horizontal convolution of the whole image, border rows included. |
| GaussianBlur.InnerPixels | examples/hpca/solutions/05_gaussian.cpp:83-127 | After both passes the inner pixels of a tile hold the clamped reference of the whole image: the cyclic wraparound stays in the border. |
| TiledBlur.ExtractTile | examples/hpca/solutions/05_gaussian.cpp:226-248 | The tile with its border, cut from the image with clamped coordinates. |
| TiledBlur.Quantised | examples/hpca/solutions/05_gaussian.cpp:266-268 | Between 0 and 1 the whole part of 255 times the value; 0 below and 255 above. |
| TiledBlur.QuantisedPixel | examples/hpca/solutions/05_gaussian.cpp:243-268 | A pixel scaled to a real and back is the same pixel. |
| TiledBlur.InsertTile | examples/hpca/solutions/05_gaussian.cpp:253-272 | Exactly the tile's inner pixels that lie in the image are written, once each, quantised. |
| TiledBlur.TileOfPixel | examples/hpca/solutions/05_gaussian.cpp:363-365 | A pixel lies in exactly one tile. |
| TiledBlur.TileHasFinal | examples/hpca/solutions/05_gaussian.cpp:477-486 | What a blurred tile has for a pixel is the reference's value for it. |
| TiledBlur.ExtractTiles | examples/hpca/solutions/05_gaussian.cpp:439-446 | All tiles, in row order. |
| TiledBlur.BlurTiles | examples/hpca/solutions/05_gaussian.cpp:459-464 | Each of them blurred by both passes. |
| TiledBlur.InsertTiles | examples/hpca/solutions/05_gaussian.cpp:477-486 | Afterwards every pixel has its final value and was written once. |
| TiledBlur.BlurImage | examples/hpca/solutions/05_gaussian.cpp:439-486 | For every non-empty image, odd symmetric kernel and positive tile size: every pixel is written exactly once, with the quantised value of the clamped horizontal-then-vertical reference; a kernel of the one weight 1 gives the image back, and weights that add up to one keep an evenly coloured image. |
| StillImages.UnitKernel | examples/hpca/solutions/05_gaussian.cpp:277-316 | The reference with the one weight 1 is the identity. |
| StillImages.EvenImage | examples/hpca/solutions/05_gaussian.cpp:277-316 | With weights that add up to one, as the kernel is normalised, the reference keeps an evenly coloured image, clamped borders included. |

## Left out

- FIXEDMANUAL: every operation is modelled under FIXEDAUTO, FLEXIBLEAUTO and FLEXIBLEAUTOEXT only; `add` under FIXEDMANUAL asserts the negation of the branch it is in.
- Level L + 1 under FLEXIBLEAUTOEXT: a rescale drops two levels there; levels are at most L.
- Plaintext operands (`addPt`, `subPt`, `multPt`): their adjustment is not part of this model.
- CkksCiphertext.Ciphertext.Mult: what the source goes on to do with a degree-2 ciphertext as its own operand, against its assertions, is not followed beyond the failure.
- CkksCiphertext.Ciphertext.MultiplyKernel: tensor product, relinearisation and key switching act on exact values; noise is not modelled.
- CkksCiphertext.Ciphertext.RescaleInternal: the canonical-scale assertion of the source is compared with SF[l]*SF[l], so that index 0 of the squared-scale table, which the FLEXIBLE branches never reach, needs no value; the order of floating-point evaluation is not modelled.
- Key tags and extended-basis assertions in sums and products (`keyID`, `isModUp`): operands share a key and are in the plain basis.
- Floating-point rounding: `double` is modelled by `real`.
- NTT, streams, multi-GPU partitions and CUDA kernels: limbs hold coefficients, and one list of limbs stands for all devices.
- CiphertextOffload.Ciphertext.Offload: the plain basis only, as the source asserts.
- CiphertextOffload.Ciphertext.Load: the plain basis only; the special limbs of an extended ciphertext are left out.
- CiphertextOffload.Ciphertext.Store: the plain basis only; the special limbs of an extended ciphertext are left out.
- RnsPolynomial.RNSPoly.Load: special limbs, and the level L + 1 that a single one of them stands for, are left out.
- RnsPolynomial.RNSPoly.Store: special limbs are left out.
- CkksCiphertext.Ciphertext.AdjustScaleAndLevel: works on a resident ciphertext's value; the branch that goes wrong on a parked one is followed on the limbs in `CiphertextOffload.Ciphertext.AlignToDegreeTwo`.
- Circuits.CircuitBudget: a product whose budget is spent counts as failed although the library hands it back; what fails is the next rescale (`Circuits.SpentProduct`).
- The registry holds records of device ciphertexts, not the objects; the class is proved to move its record as the cache's functions do.
- RnsPolynomial.RNSPoly.Grow: the contents of new limbs are unspecified, as on the device.
- RotationIndex.AutomorphIndexPrecomp: amounts and ring sizes are mathematical integers; only the unsigned exponent wraps, at 64 bits.
- API objects are values in maps, named by identifiers, instead of shared pointers; a weak pointer to an owner is the owner's name, and the name of a used plaintext is not given out again.
- CacheRuns.CachesAreInvisible: decrypting into, or resizing, a plaintext that was used is excluded, since there the caches are visible; explicit offload of an extended ciphertext, against which the source asserts, is excluded too.
- CPU-only contexts, contexts not yet loaded, and 32-bit wrap-around of handles.
- Isolation of CPU copies: the lazy-copy flag of a clone is left out.
- Rotation-key and bootstrap caches: the API only forwards to code that is not part of this model.
- Encryption, decryption arithmetic, key generation, serialization, timing and printing.
- MatrixProduct.MatrixMatrixProductSquare: the slot vector has exactly d*d slots, as the cyclic rotations need; rotations, masks and products are exact.
- BlockedProduct.ExtractAndLinearizeMatrixBlock: assumes the slots hold the block; the source would write past them.
- BlockedProduct.ConvertToLargeMatrix: assumes every block is full; the source's check of the size is commented out.
- MatrixMatrixProductwithBias: a sum on top of the product that is modelled.
- Inflate: dynamic Huffman blocks, which the encoder never writes, are not decoded.
- BitSinks.BitSink.Add: the 32-bit accumulator is a natural number; fewer than 8 bits wait and at most 13 are added, so it never overflows.
- Bits.OrIsSum: is stated on 32-bit words and not tied to the natural-number accumulator by a conversion.
- ZlibCompress.ChooseMatch: the quality changes which match is found, never whether the result decodes; compression ratio is not modelled.
- Allocation failure and overflow of signed lengths in the encoders.
- PNG chunk framing, CRC and the header chunk: `PngFilter.ImageData` covers the image data chunk.
- PngFilter.EncodePngLine: signed line bytes are taken as unsigned, which differ by a multiple of 256.
- The uncompressed TGA path, BMP and JPEG.
- HdrRle.WriteScanline: starts from RGBE pixels; the conversion from floats and the file header are left out.
- TiledBlur.BlurImage: the tile size is a parameter; rounding it down to a power of two with its border, computing the Gaussian kernel, and the output image's initial contents (irrelevant, since every pixel is written) are left out.
- ZlibCompress.Zhash: decides which positions share a list of candidates, and so which match is found; no contract pins its value.
