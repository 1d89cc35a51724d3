/** Mempool standardness policy (mining/src/mempool/check_transaction_standard.rs): the
    checks a transaction must pass, on its own and against its inputs' context, to be
    relayed and mined; the dust rule for outputs; and the minimum relay fee for a mass. */
module Standardness {
  import opened Common
  import opened Arithmetic

  /** The most signature operations a standard pay-to-script-hash input may run. */
  const MAX_STANDARD_P2SH_SIG_OPS: u8 := 15

  /** The largest standard signature script: a 15-of-15 multisig redeem script, with margin. */
  const MAXIMUM_STANDARD_SIGNATURE_SCRIPT_SIZE: u64 := 1650

  /** The largest mass of a standard transaction. */
  const MAXIMUM_STANDARD_TRANSACTION_MASS: u64 := 100_000

  /** The largest monetary amount, 29 billion KAS of 10^8 sompi each (a consensus constant
      defined outside this model). */
  const MAX_SOMPI: u64 := 2_900_000_000_000_000_000

  /** The highest known script public key version (a consensus constant defined outside this
      model). */
  const MAX_SCRIPT_PUBLIC_KEY_VERSION: u16 := 0

  datatype ScriptPublicKey = ScriptPublicKey(version: u16, script: seq<u8>)

  datatype TransactionOutput = TransactionOutput(value: u64, scriptPublicKey: ScriptPublicKey)

  /** Only the signature script of an input matters to the rules. */
  datatype TransactionInput = TransactionInput(signatureScript: seq<u8>)

  datatype Transaction = Transaction(version: u16, inputs: seq<TransactionInput>, outputs: seq<TransactionOutput>)

  /** A transaction with the mass and fee the mempool computed for it, when it did; `id` is
      the transaction hash. */
  datatype MutableTransaction = MutableTransaction(
    id: Hash,
    tx: Transaction,
    calculatedMass: Option<u64>,
    calculatedFee: Option<u64>)

  /** The mempool configuration fields the rules read. */
  datatype MempoolConfig = MempoolConfig(
    maximumStandardTransactionVersion: u16,
    minimumStandardTransactionVersion: u16,
    minimumRelayTransactionFee: u64)

  /** The classes of the script engine stub the rules use. */
  datatype ScriptClass = NonStandard | PubKey | PubKeyECDSA | ScriptHash

  datatype NonStandardError =
    | RejectVersion(txId: Hash, version: u16, minVersion: u16, maxVersion: u16)
    | RejectMass(txId: Hash, mass: u64, maxMass: u64)
    | RejectSignatureScriptSize(txId: Hash, inputIndex: nat, size: nat, maxSize: u64)
    | RejectScriptPublicKeyVersion(txId: Hash, outputIndex: nat)
    | RejectOutputScriptClass(txId: Hash, outputIndex: nat)
    | RejectDust(txId: Hash, outputIndex: nat, value: u64)
    | RejectInputScriptClass(txId: Hash, inputIndex: nat)
    | RejectSignatureCount(txId: Hash, inputIndex: nat, sigOps: u8, maxSigOps: u8)
    | RejectInsufficientFee(txId: Hash, fee: u64, minimumFee: u64)

  /** `NonStandardResult<()>`. */
  type Verdict = Result<(), NonStandardError>

  // ---------------------------------------------------------------------------------------
  // Dust
  // ---------------------------------------------------------------------------------------

  /** `transaction_output_estimated_serialized_size`: value (8 bytes), script version (2),
      script length (8) and the script. */
  function EstimatedSerializedSize(output: TransactionOutput): nat {
    18 + |output.scriptPublicKey.script|
  }

  /** `is_transaction_output_dust`: an output whose script is under 33 bytes is unspendable,
      hence dust; otherwise it is dust when spending it, at a third of the relay fee per
      kilobyte of the output plus a 148-byte input, would cost more than it is worth. The
      128-bit intermediate values of the source never overflow. */
  function IsTransactionOutputDust(config: MempoolConfig, output: TransactionOutput): (r: bool)
    ensures |output.scriptPublicKey.script| < 33 ==> r
    ensures |output.scriptPublicKey.script| >= 33 ==>
      (r <==> output.value * 1000 < 3 * (EstimatedSerializedSize(output) + 148) * config.minimumRelayTransactionFee)
  {
    if |output.scriptPublicKey.script| < 33 then true
    else
      var totalSerializedSize := EstimatedSerializedSize(output) + 148;
      DivLessIff(output.value * 1000, 3 * totalSerializedSize, config.minimumRelayTransactionFee);
      output.value * 1000 / (3 * totalSerializedSize) < config.minimumRelayTransactionFee
  }

  /** Raising the value of an output that is not dust keeps it out of dust. */
  lemma DustMonotoneInValue(config: MempoolConfig, output: TransactionOutput, value: u64)
    requires !IsTransactionOutputDust(config, output) && output.value <= value
    ensures !IsTransactionOutputDust(config, output.(value := value))
  {
  }

  /** Raising the relay fee never turns dust into an acceptable output. */
  lemma DustMonotoneInFee(config: MempoolConfig, output: TransactionOutput, fee: u64)
    requires IsTransactionOutputDust(config, output) && config.minimumRelayTransactionFee <= fee
    ensures IsTransactionOutputDust(config.(minimumRelayTransactionFee := fee), output)
  {
    var size := 3 * (EstimatedSerializedSize(output) + 148);
    assert size * config.minimumRelayTransactionFee <= size * fee by {
      MulLessIff(size, fee, config.minimumRelayTransactionFee);
    }
  }

  /** With no relay fee only unspendable outputs are dust. */
  lemma NoDustWithoutRelayFee(config: MempoolConfig, output: TransactionOutput)
    requires config.minimumRelayTransactionFee == 0
    ensures IsTransactionOutputDust(config, output) <==> |output.scriptPublicKey.script| < 33
  {
  }

  /** The 36-byte pay-to-pubkey script of the dust test. */
  const TEST_SCRIPT: seq<u8> := seq(36, i => 0)

  /** The dust test vectors: at a relay fee of 1000 the 36-byte script output is dust at 605
      sompi and not at 606; neither `MAX_SOMPI` nor `u64::MAX` (at a `u64::MAX` fee) is dust; a
      zero value is dust at any positive fee and not at a zero fee; and a one-byte script is
      dust even without a fee. */
  lemma DustTestVectors()
    ensures var key := ScriptPublicKey(0, TEST_SCRIPT);
      && IsTransactionOutputDust(MempoolConfig(0, 0, 1000), TransactionOutput(605, key))
      && !IsTransactionOutputDust(MempoolConfig(0, 0, 1000), TransactionOutput(606, key))
      && !IsTransactionOutputDust(MempoolConfig(0, 0, 1000), TransactionOutput(MAX_SOMPI, key))
      && !IsTransactionOutputDust(MempoolConfig(0, 0, TWO_64 - 1), TransactionOutput(TWO_64 - 1, key))
      && !IsTransactionOutputDust(MempoolConfig(0, 0, 0), TransactionOutput(0, key))
      && IsTransactionOutputDust(MempoolConfig(0, 0, 1), TransactionOutput(0, key))
      && IsTransactionOutputDust(MempoolConfig(0, 0, 0), TransactionOutput(5000, ScriptPublicKey(0, [1])))
  {
  }

  // ---------------------------------------------------------------------------------------
  // Minimum relay fee
  // ---------------------------------------------------------------------------------------

  /** The minimum fee for a mass: `mass * minimum_relay_transaction_fee / 1000` (the fee is
      per kilogram, the mass in grams), raised to the relay fee itself when that rounds to
      zero, and capped at `MAX_SOMPI`. The 64-bit product aborts on overflow. */
  function MinimumRelayFee(minimumRelayTransactionFee: u64, mass: u64): (r: Checked<u64>)
    ensures r.Panic? <==> mass * minimumRelayTransactionFee >= TWO_64
    ensures r.Done? ==> r.value <= MAX_SOMPI
    ensures r.Done? && minimumRelayTransactionFee > 0 ==> r.value > 0
    ensures r.Done? && 1000 <= mass * minimumRelayTransactionFee < 1000 * (MAX_SOMPI + 1) ==>
      r.value * 1000 <= mass * minimumRelayTransactionFee < (r.value + 1) * 1000
    ensures r.Done? && mass * minimumRelayTransactionFee < 1000 ==>
      r.value == Min(minimumRelayTransactionFee, MAX_SOMPI)
  {
    var product := mass * minimumRelayTransactionFee;
    if product >= TWO_64 then Panic
    else
      var scaled: u64 := product / 1000;
      var fee: u64 := if scaled == 0 then minimumRelayTransactionFee else scaled;
      Done(Min(fee, MAX_SOMPI))
  }

  function Min(a: u64, b: u64): u64 { if a <= b then a else b }

  /** `minimum_required_transaction_relay_fee`, updating its `minimum_fee` local in place. */
  method MinimumRequiredTransactionRelayFee(config: MempoolConfig, mass: u64) returns (r: Checked<u64>)
    ensures r == MinimumRelayFee(config.minimumRelayTransactionFee, mass)
  {
    if mass * config.minimumRelayTransactionFee >= TWO_64 {
      return Panic;  // the multiplication overflows
    }
    var minimumFee: u64 := mass * config.minimumRelayTransactionFee / 1000;
    if minimumFee == 0 {
      minimumFee := config.minimumRelayTransactionFee;
    }
    if MAX_SOMPI < minimumFee {
      minimumFee := MAX_SOMPI;
    }
    r := Done(minimumFee);
  }

  /** The minimum fee test table, each row as (relay fee, mass) -> fee. */
  lemma MinimumFeeTestTable()
    ensures MinimumRelayFee(3, 250) == Done(3)
    ensures MinimumRelayFee(1000, 100) == Done(100)
    ensures MinimumRelayFee(1000, MAXIMUM_STANDARD_TRANSACTION_MASS) == Done(100000)
    ensures MinimumRelayFee(5000, 1500) == Done(7500)
    ensures MinimumRelayFee(3000, 1500) == Done(4500)
    ensures MinimumRelayFee(5000, 782) == Done(3910)
    ensures MinimumRelayFee(3000, 782) == Done(2346)
    ensures MinimumRelayFee(2550, 782) == Done(1994)
  {
  }

  /** Without overflow, and once the mass-proportional fee is at least one sompi, a heavier
      transaction never needs a smaller fee. */
  lemma MinimumRelayFeeMonotone(minimumRelayTransactionFee: u64, light: u64, heavy: u64)
    requires light <= heavy && heavy * minimumRelayTransactionFee < TWO_64
    requires light * minimumRelayTransactionFee >= 1000
    ensures MinimumRelayFee(minimumRelayTransactionFee, light).Done?
    ensures MinimumRelayFee(minimumRelayTransactionFee, light).value <= MinimumRelayFee(minimumRelayTransactionFee, heavy).value
  {
    assert light * minimumRelayTransactionFee <= heavy * minimumRelayTransactionFee by {
      MulLessIff(minimumRelayTransactionFee, heavy, light);
    }
    var heavyFee := heavy * minimumRelayTransactionFee / 1000;
    DivLessIff(light * minimumRelayTransactionFee, 1000, heavyFee + 1);
  }

  /** Below one sompi the relay fee itself is charged, so a lighter transaction can need more
      than a heavier one: at 5 sompi per kilogram, 100 grams cost 5 and 300 grams cost 1. */
  lemma MinimumRelayFeeFloorIsNotMonotone()
    ensures MinimumRelayFee(5, 100) == Done(5) && MinimumRelayFee(5, 300) == Done(1)
  {
  }

  // ---------------------------------------------------------------------------------------
  // Standardness in isolation
  // ---------------------------------------------------------------------------------------

  predicate VersionIsStandard(config: MempoolConfig, version: u16) {
    config.minimumStandardTransactionVersion <= version <= config.maximumStandardTransactionVersion
  }

  predicate InputIsStandard(input: TransactionInput) {
    |input.signatureScript| <= MAXIMUM_STANDARD_SIGNATURE_SCRIPT_SIZE
  }

  /** A standard output: a known script version, a script of at least 34 bytes (the stand-in
      for a pay-to-pubkey class), and not dust. */
  predicate OutputIsStandard(config: MempoolConfig, output: TransactionOutput) {
    && output.scriptPublicKey.version <= MAX_SCRIPT_PUBLIC_KEY_VERSION
    && |output.scriptPublicKey.script| >= 34
    && !IsTransactionOutputDust(config, output)
  }

  /** The position of the first non-standard input. */
  function FirstOversizedInput(inputs: seq<TransactionInput>): (r: Option<nat>)
    ensures r.None? <==> forall j | 0 <= j < |inputs| :: InputIsStandard(inputs[j])
    ensures r.Some? ==> r.value < |inputs| && !InputIsStandard(inputs[r.value])
    ensures r.Some? ==> forall j | 0 <= j < r.value :: InputIsStandard(inputs[j])
  {
    if inputs == [] then None
    else if !InputIsStandard(inputs[0]) then Some(0)
    else
      match FirstOversizedInput(inputs[1..])
      case None => None
      case Some(i) => Some(i + 1)
  }

  /** The position of the first non-standard output. */
  function FirstNonStandardOutput(config: MempoolConfig, outputs: seq<TransactionOutput>): (r: Option<nat>)
    ensures r.None? <==> forall j | 0 <= j < |outputs| :: OutputIsStandard(config, outputs[j])
    ensures r.Some? ==> r.value < |outputs| && !OutputIsStandard(config, outputs[r.value])
    ensures r.Some? ==> forall j | 0 <= j < r.value :: OutputIsStandard(config, outputs[j])
  {
    if outputs == [] then None
    else if !OutputIsStandard(config, outputs[0]) then Some(0)
    else
      match FirstNonStandardOutput(config, outputs[1..])
      case None => None
      case Some(i) => Some(i + 1)
  }

  /** The error for a non-standard output at position `i`: its script version is checked
      first, then its script class, then dust. */
  function OutputError(config: MempoolConfig, txId: Hash, i: nat, output: TransactionOutput): (e: NonStandardError)
    requires !OutputIsStandard(config, output)
    ensures e.RejectScriptPublicKeyVersion? <==> output.scriptPublicKey.version > MAX_SCRIPT_PUBLIC_KEY_VERSION
    ensures e.RejectOutputScriptClass? <==>
      output.scriptPublicKey.version <= MAX_SCRIPT_PUBLIC_KEY_VERSION && |output.scriptPublicKey.script| < 34
    ensures e.RejectDust? <==>
      output.scriptPublicKey.version <= MAX_SCRIPT_PUBLIC_KEY_VERSION && |output.scriptPublicKey.script| >= 34
    ensures e.RejectDust? ==> IsTransactionOutputDust(config, output) && e.value == output.value
    ensures e.txId == txId && e.outputIndex == i
  {
    if output.scriptPublicKey.version > MAX_SCRIPT_PUBLIC_KEY_VERSION then RejectScriptPublicKeyVersion(txId, i)
    else if |output.scriptPublicKey.script| < 34 then RejectOutputScriptClass(txId, i)
    else RejectDust(txId, i, output.value)
  }

  /** Every rule checked in isolation holds. */
  predicate IsStandardInIsolation(config: MempoolConfig, mtx: MutableTransaction) {
    && VersionIsStandard(config, mtx.tx.version)
    && mtx.calculatedMass.Some? && mtx.calculatedMass.value <= MAXIMUM_STANDARD_TRANSACTION_MASS
    && (forall j | 0 <= j < |mtx.tx.inputs| :: InputIsStandard(mtx.tx.inputs[j]))
    && (forall j | 0 <= j < |mtx.tx.outputs| :: OutputIsStandard(config, mtx.tx.outputs[j]))
  }

  /** The verdict of `check_transaction_standard_in_isolation`: the first rule broken, in the
      order version, mass, inputs (lowest position first), outputs (lowest position first).
      A missing mass aborts once the version passed. */
  function StandardInIsolation(config: MempoolConfig, mtx: MutableTransaction): (r: Checked<Verdict>)
    ensures r == Done(Ok(())) <==> IsStandardInIsolation(config, mtx)
    ensures r.Panic? <==> VersionIsStandard(config, mtx.tx.version) && mtx.calculatedMass.None?
  {
    var tx := mtx.tx;
    if !VersionIsStandard(config, tx.version) then
      Done(Err(RejectVersion(mtx.id, tx.version, config.minimumStandardTransactionVersion, config.maximumStandardTransactionVersion)))
    else if mtx.calculatedMass.None? then Panic
    else if mtx.calculatedMass.value > MAXIMUM_STANDARD_TRANSACTION_MASS then
      Done(Err(RejectMass(mtx.id, mtx.calculatedMass.value, MAXIMUM_STANDARD_TRANSACTION_MASS)))
    else
      match FirstOversizedInput(tx.inputs)
      case Some(i) =>
        Done(Err(RejectSignatureScriptSize(mtx.id, i, |tx.inputs[i].signatureScript|, MAXIMUM_STANDARD_SIGNATURE_SCRIPT_SIZE)))
      case None =>
        match FirstNonStandardOutput(config, tx.outputs)
        case Some(i) => Done(Err(OutputError(config, mtx.id, i, tx.outputs[i])))
        case None => Done(Ok(()))
  }

  /** A rejected output is the first non-standard one, every input is standard, and the rule
      named is the first one the output breaks. */
  lemma OutputRejectionIsFirstFailure(config: MempoolConfig, mtx: MutableTransaction, e: NonStandardError)
    requires StandardInIsolation(config, mtx) == Done(Err(e))
    requires e.RejectScriptPublicKeyVersion? || e.RejectOutputScriptClass? || e.RejectDust?
    ensures VersionIsStandard(config, mtx.tx.version)
    ensures mtx.calculatedMass.Some? && mtx.calculatedMass.value <= MAXIMUM_STANDARD_TRANSACTION_MASS
    ensures forall j | 0 <= j < |mtx.tx.inputs| :: InputIsStandard(mtx.tx.inputs[j])
    ensures e.outputIndex < |mtx.tx.outputs| && !OutputIsStandard(config, mtx.tx.outputs[e.outputIndex])
    ensures forall j | 0 <= j < e.outputIndex :: OutputIsStandard(config, mtx.tx.outputs[j])
    ensures e == OutputError(config, mtx.id, e.outputIndex, mtx.tx.outputs[e.outputIndex])
  {
  }

  /** A rejected input is the first oversized one, and only version and mass were checked
      before it. */
  lemma InputRejectionIsFirstFailure(config: MempoolConfig, mtx: MutableTransaction, e: NonStandardError)
    requires StandardInIsolation(config, mtx) == Done(Err(e)) && e.RejectSignatureScriptSize?
    ensures VersionIsStandard(config, mtx.tx.version)
    ensures mtx.calculatedMass.Some? && mtx.calculatedMass.value <= MAXIMUM_STANDARD_TRANSACTION_MASS
    ensures e.inputIndex < |mtx.tx.inputs| && e.size == |mtx.tx.inputs[e.inputIndex].signatureScript| > MAXIMUM_STANDARD_SIGNATURE_SCRIPT_SIZE
    ensures forall j | 0 <= j < e.inputIndex :: InputIsStandard(mtx.tx.inputs[j])
  {
  }

  /** A version outside the configured range is reported whatever else is wrong. */
  lemma VersionCheckedFirst(config: MempoolConfig, mtx: MutableTransaction)
    requires !VersionIsStandard(config, mtx.tx.version)
    ensures StandardInIsolation(config, mtx) == Done(Err(RejectVersion(mtx.id, mtx.tx.version,
      config.minimumStandardTransactionVersion, config.maximumStandardTransactionVersion)))
  {
  }

  /** The number of sompi in one KAS. */
  const SOMPI_PER_KASPA: u64 := 100_000_000

  /** A mempool configuration accepting transaction version 0 only, at the default relay fee
      of 1000 sompi per kilogram. */
  const TEST_CONFIG: MempoolConfig := MempoolConfig(0, 0, 1000)

  /** A one-input, one-output transaction of mass 1000 with the given version, signature
      script length, output value and output script length. */
  function TestTransaction(version: u16, signatureScriptLength: nat, value: u64, scriptLength: nat): MutableTransaction {
    MutableTransaction(ZERO_HASH,
      Transaction(version, [TransactionInput(seq(signatureScriptLength, i => 0))],
        [TransactionOutput(value, ScriptPublicKey(0, seq(scriptLength, i => 1)))]),
      Some(1000), None)
  }

  /** The scenarios of the isolation test: a typical pay-to-pubkey transaction is standard; a
      version too high is reported even with an oversized signature script; a zero-value
      output is dust, also with an oversized script; and one-byte scripts are non-standard. */
  lemma IsolationTestScenarios()
    ensures StandardInIsolation(TEST_CONFIG, TestTransaction(0, 65, SOMPI_PER_KASPA, 34)) == Done(Ok(()))
    ensures StandardInIsolation(TEST_CONFIG, TestTransaction(1, 65, SOMPI_PER_KASPA, 34)) == Done(Err(RejectVersion(ZERO_HASH, 1, 0, 0)))
    ensures StandardInIsolation(TEST_CONFIG, TestTransaction(0, 65, 0, 100_001)) == Done(Err(RejectDust(ZERO_HASH, 0, 0)))
    ensures StandardInIsolation(TEST_CONFIG, TestTransaction(1, 1651, SOMPI_PER_KASPA, 34)) == Done(Err(RejectVersion(ZERO_HASH, 1, 0, 0)))
    ensures StandardInIsolation(TEST_CONFIG, TestTransaction(0, 65, SOMPI_PER_KASPA, 1)) == Done(Err(RejectOutputScriptClass(ZERO_HASH, 0)))
    ensures StandardInIsolation(TEST_CONFIG, TestTransaction(0, 65, 0, 34)) == Done(Err(RejectDust(ZERO_HASH, 0, 0)))
    ensures StandardInIsolation(TEST_CONFIG, TestTransaction(0, 1651, SOMPI_PER_KASPA, 34))
      == Done(Err(RejectSignatureScriptSize(ZERO_HASH, 0, 1651, MAXIMUM_STANDARD_SIGNATURE_SCRIPT_SIZE)))
  {
  }

  /** `check_transaction_standard_in_isolation`: the version and mass checks, then a loop
      over the inputs and a loop over the outputs, each returning at the first failure. */
  method CheckTransactionStandardInIsolation(config: MempoolConfig, mtx: MutableTransaction) returns (r: Checked<Verdict>)
    ensures r == StandardInIsolation(config, mtx)
  {
    var tx := mtx.tx;
    if tx.version > config.maximumStandardTransactionVersion || tx.version < config.minimumStandardTransactionVersion {
      return Done(Err(RejectVersion(mtx.id, tx.version, config.minimumStandardTransactionVersion, config.maximumStandardTransactionVersion)));
    }
    if mtx.calculatedMass.None? {
      return Panic;  // `calculated_mass.unwrap()`
    }
    if mtx.calculatedMass.value > MAXIMUM_STANDARD_TRANSACTION_MASS {
      return Done(Err(RejectMass(mtx.id, mtx.calculatedMass.value, MAXIMUM_STANDARD_TRANSACTION_MASS)));
    }
    for i := 0 to |tx.inputs|
      invariant forall j | 0 <= j < i :: InputIsStandard(tx.inputs[j])
    {
      var signatureScriptLen := |tx.inputs[i].signatureScript|;
      if signatureScriptLen > MAXIMUM_STANDARD_SIGNATURE_SCRIPT_SIZE {
        return Done(Err(RejectSignatureScriptSize(mtx.id, i, signatureScriptLen, MAXIMUM_STANDARD_SIGNATURE_SCRIPT_SIZE)));
      }
    }
    for i := 0 to |tx.outputs|
      invariant forall j | 0 <= j < i :: OutputIsStandard(config, tx.outputs[j])
    {
      var output := tx.outputs[i];
      if output.scriptPublicKey.version > MAX_SCRIPT_PUBLIC_KEY_VERSION {
        return Done(Err(RejectScriptPublicKeyVersion(mtx.id, i)));
      }
      // the script engine stub: scripts under 34 bytes are non-standard
      var scriptClass := if |output.scriptPublicKey.script| < 34 then NonStandard else PubKey;
      if scriptClass == NonStandard {
        return Done(Err(RejectOutputScriptClass(mtx.id, i)));
      }
      if IsTransactionOutputDust(config, output) {
        return Done(Err(RejectDust(mtx.id, i, output.value)));
      }
    }
    return Done(Ok(()));
  }

  // ---------------------------------------------------------------------------------------
  // Standardness in context
  // ---------------------------------------------------------------------------------------

  /** The verdict of the loop of `check_transaction_standard_in_context` from input `i` on,
      with the script engine's answers given as `scriptClassOf` and `sigOpsOf` (by input
      position): a non-standard input is rejected; a pay-to-script-hash input may run at
      most `MAX_STANDARD_P2SH_SIG_OPS` signature operations; and then the fee must reach the
      minimum for the mass. A missing mass or fee, or a minimum-fee overflow, aborts. */
  function InContextFrom(config: MempoolConfig, mtx: MutableTransaction, scriptClassOf: nat -> ScriptClass,
                         sigOpsOf: nat -> u8, i: nat): (r: Checked<Verdict>)
    decreases |mtx.tx.inputs| - i
  {
    if i >= |mtx.tx.inputs| then Done(Ok(()))
    else if scriptClassOf(i) == NonStandard then Done(Err(RejectInputScriptClass(mtx.id, i)))
    else if scriptClassOf(i) == ScriptHash && sigOpsOf(i) > MAX_STANDARD_P2SH_SIG_OPS then
      Done(Err(RejectSignatureCount(mtx.id, i, sigOpsOf(i), MAX_STANDARD_P2SH_SIG_OPS)))
    else if mtx.calculatedMass.None? then Panic
    else
      match MinimumRelayFee(config.minimumRelayTransactionFee, mtx.calculatedMass.value)
      case Panic => Panic
      case Done(minimumFee) =>
        if mtx.calculatedFee.None? then Panic
        else if mtx.calculatedFee.value < minimumFee then
          Done(Err(RejectInsufficientFee(mtx.id, mtx.calculatedFee.value, minimumFee)))
        else InContextFrom(config, mtx, scriptClassOf, sigOpsOf, i + 1)
  }

  /** The script engine stub of the source: every input script is pay-to-script-hash with a
      single signature operation. */
  function StubScriptClass(i: nat): ScriptClass { ScriptHash }

  function StubSigOps(i: nat): u8 { 1 }

  /** What the fee check decides: whether the fee reaches the minimum for the mass. */
  function FeeVerdict(config: MempoolConfig, mtx: MutableTransaction): (r: Checked<Verdict>)
    ensures r.Panic? <==> (mtx.calculatedMass.None? || mtx.calculatedFee.None?
      || MinimumRelayFee(config.minimumRelayTransactionFee, mtx.calculatedMass.value).Panic?)
    ensures r.Done? ==> (r.value.Err? <==>
      mtx.calculatedFee.value < MinimumRelayFee(config.minimumRelayTransactionFee, mtx.calculatedMass.value).value)
    ensures r.Done? && r.value.Err? ==> r.value.error == RejectInsufficientFee(mtx.id, mtx.calculatedFee.value,
      MinimumRelayFee(config.minimumRelayTransactionFee, mtx.calculatedMass.value).value)
  {
    if mtx.calculatedMass.None? then Panic
    else
      match MinimumRelayFee(config.minimumRelayTransactionFee, mtx.calculatedMass.value)
      case Panic => Panic
      case Done(minimumFee) =>
        if mtx.calculatedFee.None? then Panic
        else if mtx.calculatedFee.value < minimumFee then
          Done(Err(RejectInsufficientFee(mtx.id, mtx.calculatedFee.value, minimumFee)))
        else Done(Ok(()))
  }

  /** With the stubbed script engine, a transaction without inputs passes, and one with
      inputs is decided by the fee check alone: every input repeats the same check. */
  lemma {:induction false} StubbedInContextIsFeeCheck(config: MempoolConfig, mtx: MutableTransaction, i: nat)
    requires i < |mtx.tx.inputs|
    ensures InContextFrom(config, mtx, StubScriptClass, StubSigOps, i) == FeeVerdict(config, mtx)
    decreases |mtx.tx.inputs| - i
  {
    if i + 1 < |mtx.tx.inputs| {
      StubbedInContextIsFeeCheck(config, mtx, i + 1);
    }
  }

  /** `check_transaction_standard_in_context` without inputs always passes. */
  lemma NoInputsInContext(config: MempoolConfig, mtx: MutableTransaction, scriptClassOf: nat -> ScriptClass, sigOpsOf: nat -> u8)
    requires mtx.tx.inputs == []
    ensures InContextFrom(config, mtx, scriptClassOf, sigOpsOf, 0) == Done(Ok(()))
  {
  }

  /** `check_transaction_standard_in_context`: for each input, in order, the script class and
      signature operation checks and then the fee check, returning at the first failure. */
  method CheckTransactionStandardInContext(config: MempoolConfig, mtx: MutableTransaction,
                                           scriptClassOf: nat -> ScriptClass, sigOpsOf: nat -> u8)
    returns (r: Checked<Verdict>)
    ensures r == InContextFrom(config, mtx, scriptClassOf, sigOpsOf, 0)
  {
    var inputs := mtx.tx.inputs;
    for i := 0 to |inputs|
      invariant InContextFrom(config, mtx, scriptClassOf, sigOpsOf, 0) == InContextFrom(config, mtx, scriptClassOf, sigOpsOf, i)
    {
      var scriptClass := scriptClassOf(i);
      if scriptClass == NonStandard {
        return Done(Err(RejectInputScriptClass(mtx.id, i)));
      }
      if scriptClass == ScriptHash {
        var numSigOps := sigOpsOf(i);
        if numSigOps > MAX_STANDARD_P2SH_SIG_OPS {
          return Done(Err(RejectSignatureCount(mtx.id, i, numSigOps, MAX_STANDARD_P2SH_SIG_OPS)));
        }
      }
      if mtx.calculatedMass.None? {
        return Panic;  // `calculated_mass.unwrap()`
      }
      var minimumFee := MinimumRequiredTransactionRelayFee(config, mtx.calculatedMass.value);
      if minimumFee.Panic? {
        return Panic;
      }
      if mtx.calculatedFee.None? {
        return Panic;  // `calculated_fee.unwrap()`
      }
      if mtx.calculatedFee.value < minimumFee.value {
        return Done(Err(RejectInsufficientFee(mtx.id, mtx.calculatedFee.value, minimumFee.value)));
      }
    }
    return Done(Ok(()));
  }
}
