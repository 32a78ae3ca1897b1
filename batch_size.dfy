/** How many nonces one kernel dispatch covers, and which nonce widths the
    search runs through (main.go:594-599, 675-753, 806-819, 836-851). The
    device's properties are inputs; choosing and querying the device is
    not part of this model. */
module BatchSize {
  import opened Wrappers
  import opened Decimal
  import opened Encoding

  /** A count of at least one. */
  type Positive = x: int | x >= 1 witness 1

  /** What the auto-detect reads from the device. OpenCL guarantees a
      maximum work-group size of at least one. */
  datatype DeviceHints = DeviceHints(
    isGpu: bool,
    maxComputeUnits: nat,
    maxWorkGroupSize: Positive,
    globalMemSize: nat)

  function Min(a: int, b: int): int
  {
    if a < b then a else b
  }

  /** The auto-detect estimate (main.go:683-697): a tenth of compute units
      times work-group size, capped by 1% of global memory counted in units
      of 2048 + 41 bytes per work item. */
  function OptimalSize(h: DeviceHints): (r: nat)
    ensures r <= h.maxComputeUnits * h.maxWorkGroupSize / 10
    ensures r <= h.globalMemSize / (2048 + 41) / 100
    ensures r == h.maxComputeUnits * h.maxWorkGroupSize / 10 || r == h.globalMemSize / (2048 + 41) / 100
  {
    var capacity := h.maxComputeUnits * h.maxWorkGroupSize;
    var memoryLimit := h.globalMemSize / (2048 + 41) / 100;
    var optimal := capacity / 10;
    if optimal > memoryLimit then memoryLimit else optimal
  }

  /** The decision table of main.go:704-726: the exponent of the batch size
      chosen from the estimate, more aggressive for GPUs. */
  function AutoBatchPower(isGpu: bool, optimal: nat): nat
  {
    if isGpu then
      if optimal >= 1000000 then 6
      else if optimal >= 100000 then 5
      else if optimal >= 10000 then 4
      else 4
    else
      if optimal >= 100000 then 5
      else if optimal >= 10000 then 4
      else if optimal >= 1000 then 3
      else 4
  }

  /** The table rounds the estimate down to a power of ten, capped at 10^6
      for GPUs and 10^5 for other devices; below its smallest threshold it
      falls back to 10^4. */
  lemma AutoBatchPowerRoundsDown(isGpu: bool, optimal: nat)
    ensures isGpu && optimal >= Pow10(4) ==> AutoBatchPower(isGpu, optimal) == Min(FloorLog10(optimal), 6)
    ensures !isGpu && optimal >= Pow10(3) ==> AutoBatchPower(isGpu, optimal) == Min(FloorLog10(optimal), 5)
    ensures isGpu && optimal < Pow10(4) ==> AutoBatchPower(isGpu, optimal) == 4
    ensures !isGpu && optimal < Pow10(3) ==> AutoBatchPower(isGpu, optimal) == 4
  {
    if optimal >= Pow10(6) {
      FloorLog10AtLeast(optimal, 6);
    } else if optimal >= Pow10(5) {
      FloorLog10Unique(optimal, 5);
    } else if optimal >= Pow10(4) {
      FloorLog10Unique(optimal, 4);
    } else if optimal >= Pow10(3) {
      FloorLog10Unique(optimal, 3);
    }
  }

  /** The exponent in use: the command-line value, or the auto-detected one
      when it is -1 (main.go:677-737). */
  function BatchPower(power: int, h: DeviceHints): nat
    requires -1 <= power <= 10
  {
    if power == -1 then AutoBatchPower(h.isGpu, OptimalSize(h)) else power
  }

  /** The work-group clamp of main.go:742-753: a batch larger than 100 times
      the maximum work-group size becomes the largest power of ten not
      above that bound. */
  function LimitToWorkGroup(batchSize: Positive, maxWorkGroupSize: Positive): Positive
  {
    if batchSize > maxWorkGroupSize * 100 then
      Pow10(FloorLog10(maxWorkGroupSize * 100))
    else
      batchSize
  }

  lemma LimitToWorkGroupSpec(batchSize: Positive, maxWorkGroupSize: Positive)
    ensures var r := LimitToWorkGroup(batchSize, maxWorkGroupSize);
      && r <= batchSize
      && r <= 100 * maxWorkGroupSize
      && (batchSize <= 100 * maxWorkGroupSize ==> r == batchSize)
      && (batchSize > 100 * maxWorkGroupSize ==>
            (exists k :: r == Pow10(k)) && 100 * maxWorkGroupSize < 10 * r)
  {
    if batchSize > maxWorkGroupSize * 100 {
      var k := FloorLog10(maxWorkGroupSize * 100);
      assert Pow10(k + 1) == 10 * Pow10(k);
    }
  }

  /** The results buffer may hold at most 100 MiB (main.go:840-851). */
  const MaxResultsBufferSize: nat := 100 * 1024 * 1024

  /** The results-buffer cap: a batch whose records would not fit is cut to
      the number of whole records that do. */
  function LimitResultsBuffer(batchSize: Positive): Positive
  {
    if batchSize * RecordSize > MaxResultsBufferSize then MaxResultsBufferSize / RecordSize else batchSize
  }

  lemma LimitResultsBufferSpec(batchSize: Positive)
    ensures var r := LimitResultsBuffer(batchSize);
      && r <= batchSize
      && r * RecordSize <= MaxResultsBufferSize
      && (r == batchSize <==> batchSize * RecordSize <= MaxResultsBufferSize)
      && (r < batchSize ==> (r + 1) * RecordSize > MaxResultsBufferSize)
  {
  }

  /** The widest nonce tried (main.go:808-813): enough digits for 100 times
      the expected 2^difficulty attempts, at least 10. */
  function MaxDigits(difficulty: nat): nat
  {
    var k := CeilLog10(Pow2(difficulty)) + 2;
    if k < 10 then 10 else k
  }

  lemma MaxDigitsSpec(difficulty: nat)
    ensures MaxDigits(difficulty) >= 10
    ensures 100 * Pow2(difficulty) <= Pow10(MaxDigits(difficulty))
    ensures MaxDigits(difficulty) == 10 || Pow10(MaxDigits(difficulty) - 3) < Pow2(difficulty)
  {
    var c := CeilLog10(Pow2(difficulty));
    assert Pow10(c + 2) == 100 * Pow10(c);
    Pow10Monotone(c + 2, MaxDigits(difficulty));
  }

  /** The narrowest nonce tried (main.go:815-819): one digit more than a
      batch needs, at least 5. */
  function MinDigits(batchSize: Positive): nat
  {
    var k := CeilLog10(batchSize) + 1;
    if k < 5 then 5 else k
  }

  /** A whole batch fits below the first nonce of the narrowest tier, and
      that width is the least such width of at least 5. */
  lemma MinDigitsSpec(batchSize: Positive)
    ensures MinDigits(batchSize) >= 5
    ensures batchSize <= Pow10(MinDigits(batchSize) - 1)
    ensures MinDigits(batchSize) == 5 || Pow10(MinDigits(batchSize) - 2) < batchSize
  {
    Pow10Monotone(CeilLog10(batchSize), MinDigits(batchSize) - 1);
  }

  /** What the search is configured with. */
  datatype Plan = Plan(batchSize: Positive, resultsBufferSize: nat, minDigits: nat, maxDigits: nat)

  /** The fatal configuration errors of main.go:594-600. */
  datatype ConfigError = DifficultyOutOfRange(difficulty: int) | BatchPowerOutOfRange(power: int)

  /** What every plan satisfies: the buffer holds exactly one record per
      lane, within the cap; a batch fits below the first nonce of the
      narrowest tier; the width range is at most one short of non-empty. */
  predicate WellFormedPlan(p: Plan)
  {
    && p.resultsBufferSize == p.batchSize * RecordSize
    && p.resultsBufferSize <= MaxResultsBufferSize
    && 5 <= p.minDigits <= p.maxDigits + 1
    && 10 <= p.maxDigits
    && p.batchSize <= Pow10(p.minDigits - 1)
  }

  /** The configuration steps of `main`, from the flags and the device to
      the search plan. */
  function PlanMining(difficulty: int, power: int, h: DeviceHints): Result<Plan, ConfigError>
  {
    if difficulty < 0 || difficulty > 256 then Err(DifficultyOutOfRange(difficulty))
    else if power < -1 || power > 10 then Err(BatchPowerOutOfRange(power))
    else
      var batchSize := LimitToWorkGroup(Pow10(BatchPower(power, h)), h.maxWorkGroupSize);
      var minDigits := MinDigits(batchSize);
      var capped := LimitResultsBuffer(batchSize);
      Ok(Plan(capped, capped * RecordSize, minDigits, MaxDigits(difficulty)))
  }

  /** The flags are rejected exactly when out of range; otherwise the plan
      is well formed, its batch never exceeds the requested power of ten
      nor 100 times the work-group size, and its widths are those of
      MinDigits (of the batch before the results-buffer cap, as main.go:816
      runs before main.go:840-851) and MaxDigits. */
  lemma PlanMiningSpec(difficulty: int, power: int, h: DeviceHints)
    ensures var r := PlanMining(difficulty, power, h);
      && (r.Err? <==> difficulty < 0 || difficulty > 256 || power < -1 || power > 10)
      && (r.Ok? ==>
            && WellFormedPlan(r.value)
            && r.value.batchSize <= Pow10(BatchPower(power, h))
            && r.value.batchSize <= 100 * h.maxWorkGroupSize
            && r.value.minDigits == MinDigits(LimitToWorkGroup(Pow10(BatchPower(power, h)), h.maxWorkGroupSize))
            && r.value.maxDigits == MaxDigits(difficulty))
  {
    if 0 <= difficulty <= 256 && -1 <= power <= 10 {
      var p := BatchPower(power, h);
      var batchSize := LimitToWorkGroup(Pow10(p), h.maxWorkGroupSize);
      LimitToWorkGroupSpec(Pow10(p), h.maxWorkGroupSize);
      Pow10Monotone(p, 10);
      PlanFromBatch(batchSize, difficulty);
    }
  }

  /** The plan built from a batch of at most 10^10 nonces is well formed. */
  lemma PlanFromBatch(batchSize: Positive, difficulty: nat)
    requires batchSize <= Pow10(10)
    ensures var capped := LimitResultsBuffer(batchSize);
      WellFormedPlan(Plan(capped, capped * RecordSize, MinDigits(batchSize), MaxDigits(difficulty)))
  {
    LimitResultsBufferSpec(batchSize);
    MinDigitsSpec(batchSize);
    MaxDigitsSpec(difficulty);
    CeilLog10AtMost(batchSize, 10);
  }
}
