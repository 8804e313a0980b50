/**
 * The interaction-event contract (`InteracaoSchema`): a raw field map is
 * turned into a normalised record or rejected. The steps run in the order the
 * validation library runs them: for each field its presence or default, its
 * type, its constraint on the value AS GIVEN, then its normaliser (strip or
 * round); the cross-field rule runs only once every field has passed.
 */
module Schemas {
  import opened Wrappers
  import opened Strings
  import opened Numbers
  import opened Fields

  const MinSensorIdLength := 3
  const DefaultAction := "Nenhuma"
  const DefaultLatency := 0
  const DefaultStatus := "N/A"
  const NotApplicable := "N/A"
  const UnknownKind := "Desconhecido"

  /** The eight fields of the contract; any other key of the raw map is ignored. */
  const KnownKeys: set<string> := {Timestamp, SensorId, Dwell, Interaction, Kind, Action, Latency, Status}

  /** A validated interaction event. */
  datatype Record = Record(
    timestamp: string,
    sensorId: string,
    dwell: real,
    interaction: real,
    kind: string,
    action: string,
    latencyMs: int,
    status: string)

  datatype Violation = Missing | NotText | NotNumber | NotInteger | TooShort | Negative

  datatype FieldError = FieldError(field: string, violation: Violation)

  /**
   * Every field-level violation found, in field order; or the cross-field
   * inconsistency, carrying both (rounded) times for the message.
   */
  datatype SchemaError = FieldErrors(errors: seq<FieldError>) | Inconsistent(interaction: real, dwell: real)

  predicate IsWhole(x: real) {
    x.Floor as real == x
  }

  // ---- per-field steps ----

  function RequiredText(raw: FieldMap, key: string): (r: Result<string, Violation>)
    ensures r.Success? <==> TextAt(raw, key).Some?
    ensures r.Success? ==> r.value == raw[key].s
  {
    if key !in raw then Failure(Missing)
    else if raw[key].Str? then Success(raw[key].s)
    else Failure(NotText)
  }

  /** `id_sensor`: text of at least three characters as given, then stripped. */
  function CheckSensorId(raw: FieldMap): (r: Result<string, Violation>)
    ensures r.Success? <==> TextAt(raw, SensorId).Some? && |raw[SensorId].s| >= MinSensorIdLength
    ensures r.Success? ==> r.value == Strip(raw[SensorId].s)
  {
    match RequiredText(raw, SensorId)
    case Failure(v) => Failure(v)
    case Success(s) => if |s| < MinSensorIdLength then Failure(TooShort) else Success(Strip(s))
  }

  /** A timing field: a number that is not negative as given, then rounded to two decimals. */
  function CheckTime(raw: FieldMap, key: string): (r: Result<real, Violation>)
    ensures r.Success? <==> NumberAt(raw, key).Some? && raw[key].x >= 0.0
    ensures r.Success? ==> r.value == Round2(raw[key].x)
  {
    if key !in raw then Failure(Missing)
    else match raw[key]
      case Num(x) => if x < 0.0 then Failure(Negative) else Success(Round2(x))
      case _ => Failure(NotNumber)
  }

  /** `tipo_interacao`: text, stripped. */
  function CheckKind(raw: FieldMap): (r: Result<string, Violation>)
    ensures r.Success? <==> TextAt(raw, Kind).Some?
    ensures r.Success? ==> r.value == Strip(raw[Kind].s)
  {
    match RequiredText(raw, Kind)
    case Failure(v) => Failure(v)
    case Success(s) => Success(Strip(s))
  }

  /** `acao_usuario`: text, "Nenhuma" when absent. */
  function CheckAction(raw: FieldMap): (r: Result<string, Violation>)
    ensures r.Success? <==> (Action in raw ==> raw[Action].Str?)
    ensures r.Success? ==> r.value == (if Action in raw then raw[Action].s else DefaultAction)
  {
    if Action !in raw then Success(DefaultAction)
    else if raw[Action].Str? then Success(raw[Action].s)
    else Failure(NotText)
  }

  /** `tempo_resposta_ms`: a whole number that is not negative, 0 when absent. */
  function CheckLatency(raw: FieldMap): (r: Result<int, Violation>)
    ensures r.Success? <==> (Latency in raw ==> raw[Latency].Num? && IsWhole(raw[Latency].x) && raw[Latency].x >= 0.0)
    ensures r.Success? ==> r.value as real == (if Latency in raw then raw[Latency].x else DefaultLatency as real)
  {
    if Latency !in raw then Success(DefaultLatency)
    else match raw[Latency]
      case Num(x) =>
        if !IsWhole(x) then Failure(NotInteger)
        else if x < 0.0 then Failure(Negative)
        else Success(x.Floor)
      case _ => Failure(NotInteger)
  }

  /** `status_sistema`: text, stripped, "N/A" when absent (a default is not normalised). */
  function CheckStatus(raw: FieldMap): (r: Result<string, Violation>)
    ensures r.Success? <==> (Status in raw ==> raw[Status].Str?)
    ensures r.Success? ==> r.value == (if Status in raw then Strip(raw[Status].s) else DefaultStatus)
  {
    if Status !in raw then Success(DefaultStatus)
    else if raw[Status].Str? then Success(Strip(raw[Status].s))
    else Failure(NotText)
  }

  function ErrorOf<T>(field: string, r: Result<T, Violation>): (e: seq<FieldError>)
    ensures r.Failure? <==> e != []
  {
    if r.Failure? then [FieldError(field, r.error)] else []
  }

  /** No per-field step fails. */
  predicate AllFieldsPass(raw: FieldMap) {
    && RequiredText(raw, Timestamp).Success? && CheckSensorId(raw).Success?
    && CheckTime(raw, Dwell).Success? && CheckTime(raw, Interaction).Success?
    && CheckKind(raw).Success? && CheckAction(raw).Success?
    && CheckLatency(raw).Success? && CheckStatus(raw).Success?
  }

  /** The record assembled from the normalised fields, before the cross-field rule. */
  function Normalise(raw: FieldMap): (rec: Record)
    requires AllFieldsPass(raw)
    ensures rec.timestamp == raw[Timestamp].s
    ensures rec.sensorId == Strip(raw[SensorId].s)
    ensures rec.dwell == Round2(raw[Dwell].x)
    ensures rec.interaction == Round2(raw[Interaction].x)
    ensures rec.kind == Strip(raw[Kind].s)
    ensures rec.action == (if Action in raw then raw[Action].s else DefaultAction)
    ensures rec.latencyMs as real == (if Latency in raw then raw[Latency].x else DefaultLatency as real)
    ensures rec.status == (if Status in raw then Strip(raw[Status].s) else DefaultStatus)
  {
    Record(RequiredText(raw, Timestamp).value, CheckSensorId(raw).value,
           CheckTime(raw, Dwell).value, CheckTime(raw, Interaction).value, CheckKind(raw).value,
           CheckAction(raw).value, CheckLatency(raw).value, CheckStatus(raw).value)
  }

  /** The field-level violations of `raw`, one per failing field, in declaration order. */
  function FieldErrorsOf(raw: FieldMap): (e: seq<FieldError>)
    ensures (e == []) <==> AllFieldsPass(raw)
  {
    ErrorOf(Timestamp, RequiredText(raw, Timestamp))
    + ErrorOf(SensorId, CheckSensorId(raw))
    + ErrorOf(Dwell, CheckTime(raw, Dwell))
    + ErrorOf(Interaction, CheckTime(raw, Interaction))
    + ErrorOf(Kind, CheckKind(raw))
    + ErrorOf(Action, CheckAction(raw))
    + ErrorOf(Latency, CheckLatency(raw))
    + ErrorOf(Status, CheckStatus(raw))
  }

  /** `validar_consistencia`: reject interaction longer than dwell; relabel "N/A" as "Desconhecido" once there was interaction. */
  function CheckConsistency(rec: Record): (r: Result<Record, SchemaError>)
    ensures r.Failure? <==> rec.interaction > rec.dwell
    ensures r.Failure? ==> r.error == Inconsistent(rec.interaction, rec.dwell)
    ensures r.Success? ==> r.value == rec.(kind := r.value.kind)
    ensures r.Success? ==> r.value.kind == (if rec.interaction > 0.0 && rec.kind == NotApplicable then UnknownKind else rec.kind)
  {
    if rec.interaction > rec.dwell then
      Failure(Inconsistent(rec.interaction, rec.dwell))
    else if rec.interaction > 0.0 && rec.kind == NotApplicable then
      Success(rec.(kind := UnknownKind))
    else
      Success(rec)
  }

  // ---- reference description of an acceptable raw map ----

  /** Every field is present (or defaulted) with the right kind of value and meets its constraint as given. */
  ghost predicate FieldsValid(raw: FieldMap)
    ensures FieldsValid(raw) <==> AllFieldsPass(raw)
  {
    && TextAt(raw, Timestamp).Some?
    && TextAt(raw, SensorId).Some? && |TextAt(raw, SensorId).value| >= MinSensorIdLength
    && NumberAt(raw, Dwell).Some? && NumberAt(raw, Dwell).value >= 0.0
    && NumberAt(raw, Interaction).Some? && NumberAt(raw, Interaction).value >= 0.0
    && TextAt(raw, Kind).Some?
    && (Action in raw ==> raw[Action].Str?)
    && (Latency in raw ==> raw[Latency].Num? && IsWhole(raw[Latency].x) && raw[Latency].x >= 0.0)
    && (Status in raw ==> raw[Status].Str?)
  }

  /**
   * Validation of one raw event. The contract is the whole promise of the
   * schema: field errors exactly when some field is unacceptable as given;
   * otherwise rejection exactly when the ROUNDED interaction time exceeds the
   * rounded dwell time (the error carries both); otherwise a record whose
   * texts are stripped, times rounded, defaults filled in and "N/A" relabelled.
   */
  function Validate(raw: FieldMap): (r: Result<Record, SchemaError>)
    ensures (r.Failure? && r.error.FieldErrors?) <==> !FieldsValid(raw)
    ensures r.Failure? && r.error.FieldErrors? ==> r.error.errors != []
    ensures FieldsValid(raw) ==>
      var i, d := Round2(raw[Interaction].x), Round2(raw[Dwell].x);
      && (r.Failure? <==> i > d)
      && (r.Failure? ==> r.error == Inconsistent(i, d))
    ensures r.Success? ==>
      && FieldsValid(raw)
      && r.value.timestamp == raw[Timestamp].s
      && r.value.sensorId == Strip(raw[SensorId].s)
      && r.value.dwell == Round2(raw[Dwell].x)
      && r.value.interaction == Round2(raw[Interaction].x)
      && r.value.interaction <= r.value.dwell
      && r.value.kind == (if r.value.interaction > 0.0 && Strip(raw[Kind].s) == NotApplicable
                          then UnknownKind else Strip(raw[Kind].s))
      && r.value.action == (if Action in raw then raw[Action].s else DefaultAction)
      && r.value.latencyMs as real == (if Latency in raw then raw[Latency].x else DefaultLatency as real)
      && r.value.status == (if Status in raw then Strip(raw[Status].s) else DefaultStatus)
  {
    if !AllFieldsPass(raw) then
      Failure(FieldErrors(FieldErrorsOf(raw)))
    else
      CheckConsistency(Normalise(raw))
  }

  /** `model_dump()`: the record back as a field map holding all eight fields. */
  function Dump(rec: Record): (d: FieldMap)
    ensures d.Keys == KnownKeys
    ensures TextAt(d, Timestamp) == Some(rec.timestamp) && TextAt(d, SensorId) == Some(rec.sensorId)
    ensures NumberAt(d, Dwell) == Some(rec.dwell) && NumberAt(d, Interaction) == Some(rec.interaction)
    ensures TextAt(d, Kind) == Some(rec.kind) && TextAt(d, Action) == Some(rec.action)
    ensures NumberAt(d, Latency) == Some(rec.latencyMs as real) && TextAt(d, Status) == Some(rec.status)
  {
    map[Timestamp := Str(rec.timestamp), SensorId := Str(rec.sensorId),
        Dwell := Num(rec.dwell), Interaction := Num(rec.interaction),
        Kind := Str(rec.kind), Action := Str(rec.action),
        Latency := Num(rec.latencyMs as real), Status := Str(rec.status)]
  }

  // ---- properties ----

  /** A raw event holding only the five required fields. */
  function RequiredOnly(timestamp: string, sensorId: string, dwell: real, interaction: real, kind: string): (raw: FieldMap)
    ensures TextAt(raw, Timestamp) == Some(timestamp) && TextAt(raw, SensorId) == Some(sensorId)
    ensures NumberAt(raw, Dwell) == Some(dwell) && NumberAt(raw, Interaction) == Some(interaction)
    ensures TextAt(raw, Kind) == Some(kind)
    ensures Action !in raw && Latency !in raw && Status !in raw
  {
    map[Timestamp := Str(timestamp), SensorId := Str(sensorId), Dwell := Num(dwell),
        Interaction := Num(interaction), Kind := Str(kind)]
  }

  /**
   * A sensor id shorter than three characters, a negative dwell or interaction
   * time, or a negative response latency is rejected, and the error names the
   * field and the broken constraint.
   */
  lemma RejectsOutOfRange(raw: FieldMap)
    ensures TextAt(raw, SensorId).Some? && |raw[SensorId].s| < MinSensorIdLength ==>
      Validate(raw).Failure? && FieldError(SensorId, TooShort) in Validate(raw).error.errors
    ensures NumberAt(raw, Dwell).Some? && raw[Dwell].x < 0.0 ==>
      Validate(raw).Failure? && FieldError(Dwell, Negative) in Validate(raw).error.errors
    ensures NumberAt(raw, Interaction).Some? && raw[Interaction].x < 0.0 ==>
      Validate(raw).Failure? && FieldError(Interaction, Negative) in Validate(raw).error.errors
    ensures NumberAt(raw, Latency).Some? && IsWhole(raw[Latency].x) && raw[Latency].x < 0.0 ==>
      Validate(raw).Failure? && FieldError(Latency, Negative) in Validate(raw).error.errors
  {
    var e := FieldErrorsOf(raw);
    var e0 := ErrorOf(Timestamp, RequiredText(raw, Timestamp));
    var e1 := ErrorOf(SensorId, CheckSensorId(raw));
    var e2 := ErrorOf(Dwell, CheckTime(raw, Dwell));
    var e3 := ErrorOf(Interaction, CheckTime(raw, Interaction));
    var e4 := ErrorOf(Kind, CheckKind(raw));
    var e5 := ErrorOf(Action, CheckAction(raw));
    var e6 := ErrorOf(Latency, CheckLatency(raw));
    var e7 := ErrorOf(Status, CheckStatus(raw));
    assert e == e0 + e1 + e2 + e3 + e4 + e5 + e6 + e7;
    assert forall x :: x in e1 || x in e2 || x in e3 || x in e6 ==> x in e;
  }

  /**
   * A record that validation can return and that survives validating its own
   * dump: every text field the schema strips is already stripped, the id has
   * three characters, both times are non-negative whole hundredths with
   * interaction at most dwell, "N/A" is not left with a positive interaction,
   * and the latency is not negative.
   */
  predicate Settled(rec: Record) {
    && Strip(rec.sensorId) == rec.sensorId && |rec.sensorId| >= MinSensorIdLength
    && rec.dwell >= 0.0 && Round2(rec.dwell) == rec.dwell
    && rec.interaction >= 0.0 && Round2(rec.interaction) == rec.interaction
    && rec.interaction <= rec.dwell
    && Strip(rec.kind) == rec.kind && (rec.interaction > 0.0 ==> rec.kind != NotApplicable)
    && rec.latencyMs >= 0
    && Strip(rec.status) == rec.status
  }

  /**
   * Validating the dump of an accepted record gives the same record back:
   * strip, round, the defaults and the relabelling are each idempotent. This
   * needs the stripped sensor id to still have three characters, because the
   * length is checked before stripping (see ShortSensorIdAfterStrip).
   */
  lemma ValidateIdempotent(raw: FieldMap)
    requires Validate(raw).Success?
    requires |Validate(raw).value.sensorId| >= MinSensorIdLength
    ensures Validate(Dump(Validate(raw).value)) == Validate(raw)
  {
    AcceptedIsSettled(raw);
    SettledRoundTrips(Validate(raw).value);
  }

  /** What validation accepts is settled, once its id keeps three characters. */
  lemma AcceptedIsSettled(raw: FieldMap)
    requires Validate(raw).Success?
    requires |Validate(raw).value.sensorId| >= MinSensorIdLength
    ensures Settled(Validate(raw).value)
  {
    AcceptedKindSettled(raw);
    AcceptedLatencySettled(raw);
    AcceptedTimesSettled(raw);
    AcceptedTextsSettled(raw);
  }

  lemma AcceptedKindSettled(raw: FieldMap)
    requires Validate(raw).Success?
    ensures var rec := Validate(raw).value; rec.interaction > 0.0 ==> rec.kind != NotApplicable
  {
    RelabelSettles(Strip(raw[Kind].s), Validate(raw).value);
  }

  lemma AcceptedLatencySettled(raw: FieldMap)
    requires Validate(raw).Success?
    ensures Validate(raw).value.latencyMs >= 0
  {
    LatencyIsNatural(raw, Validate(raw).value);
  }

  lemma AcceptedTimesSettled(raw: FieldMap)
    requires Validate(raw).Success?
    ensures var rec := Validate(raw).value;
      && rec.dwell >= 0.0 && Round2(rec.dwell) == rec.dwell
      && rec.interaction >= 0.0 && Round2(rec.interaction) == rec.interaction
  {
    var dwell, interaction := raw[Dwell].x, raw[Interaction].x;
    Round2NonNegative(dwell);
    Round2NonNegative(interaction);
    Round2Idempotent(dwell);
    Round2Idempotent(interaction);
  }

  lemma AcceptedTextsSettled(raw: FieldMap)
    requires Validate(raw).Success?
    ensures var rec := Validate(raw).value;
      Strip(rec.sensorId) == rec.sensorId && Strip(rec.kind) == rec.kind && Strip(rec.status) == rec.status
  {
    var rec := Validate(raw).value;
    StripIdempotent(raw[SensorId].s);
    KindIsStable(raw, rec);
    StatusIsStable(raw, rec);
  }

  /** After the relabelling, "N/A" never stands beside a positive interaction time. */
  lemma RelabelSettles(kind: string, rec: Record)
    requires rec.kind == (if rec.interaction > 0.0 && kind == NotApplicable then UnknownKind else kind)
    ensures rec.interaction > 0.0 ==> rec.kind != NotApplicable
  {
    assert |UnknownKind| != |NotApplicable|;
  }

  /** An accepted latency, given or defaulted, is not negative. */
  lemma LatencyIsNatural(raw: FieldMap, rec: Record)
    requires Latency in raw ==> raw[Latency].Num? && raw[Latency].x >= 0.0
    requires rec.latencyMs as real == (if Latency in raw then raw[Latency].x else DefaultLatency as real)
    ensures rec.latencyMs >= 0
  {
  }

  /** A settled record is exactly what validating its dump returns. */
  lemma SettledRoundTrips(rec: Record)
    requires Settled(rec)
    ensures Validate(Dump(rec)) == Success(rec)
  {
    DumpRebuilds(rec);
    DumpValidates(rec);
  }

  lemma DumpRebuilds(rec: Record)
    requires Settled(rec)
    ensures AllFieldsPass(Dump(rec)) && Normalise(Dump(rec)) == rec
  {
    SettledFieldsRebuild(Dump(rec), rec);
  }

  lemma DumpValidates(rec: Record)
    requires Settled(rec)
    requires AllFieldsPass(Dump(rec)) && Normalise(Dump(rec)) == rec
    ensures Validate(Dump(rec)) == Success(rec)
  {
    ValidateRebuilds(Dump(rec), rec);
  }

  /** A map holding a settled record's values passes every field check and normalises back to the record. */
  lemma SettledFieldsRebuild(d: FieldMap, rec: Record)
    requires Settled(rec)
    requires TextAt(d, Timestamp) == Some(rec.timestamp) && TextAt(d, SensorId) == Some(rec.sensorId)
    requires NumberAt(d, Dwell) == Some(rec.dwell) && NumberAt(d, Interaction) == Some(rec.interaction)
    requires TextAt(d, Kind) == Some(rec.kind) && TextAt(d, Action) == Some(rec.action)
    requires NumberAt(d, Latency) == Some(rec.latencyMs as real) && TextAt(d, Status) == Some(rec.status)
    ensures AllFieldsPass(d) && Normalise(d) == rec
  {
    SettledIdPasses(d, rec);
    SettledLabelsPass(d, rec);
    SettledNumbersPass(d, rec);
    NormaliseRebuilds(d, rec);
  }

  /** The timestamp and the sensor id of a settled record pass their checks unchanged. */
  lemma SettledIdPasses(d: FieldMap, rec: Record)
    requires |rec.sensorId| >= MinSensorIdLength && Strip(rec.sensorId) == rec.sensorId
    requires TextAt(d, Timestamp) == Some(rec.timestamp) && TextAt(d, SensorId) == Some(rec.sensorId)
    ensures RequiredText(d, Timestamp) == Success(rec.timestamp) && CheckSensorId(d) == Success(rec.sensorId)
  {
    StrippedIdPasses(d, rec.sensorId);
  }

  /** The kind, the action and the status of a settled record pass their checks unchanged. */
  lemma SettledLabelsPass(d: FieldMap, rec: Record)
    requires Strip(rec.kind) == rec.kind && Strip(rec.status) == rec.status
    requires TextAt(d, Kind) == Some(rec.kind) && TextAt(d, Action) == Some(rec.action)
    requires TextAt(d, Status) == Some(rec.status)
    ensures CheckKind(d) == Success(rec.kind) && CheckAction(d) == Success(rec.action)
    ensures CheckStatus(d) == Success(rec.status)
  {
    StrippedKindPasses(d, rec.kind);
    StrippedStatusPasses(d, rec.status);
  }

  /** The numeric fields of a settled record pass their checks unchanged. */
  lemma SettledNumbersPass(d: FieldMap, rec: Record)
    requires rec.dwell >= 0.0 && Round2(rec.dwell) == rec.dwell
    requires rec.interaction >= 0.0 && Round2(rec.interaction) == rec.interaction
    requires rec.latencyMs >= 0
    requires NumberAt(d, Dwell) == Some(rec.dwell) && NumberAt(d, Interaction) == Some(rec.interaction)
    requires NumberAt(d, Latency) == Some(rec.latencyMs as real)
    ensures CheckTime(d, Dwell) == Success(rec.dwell) && CheckTime(d, Interaction) == Success(rec.interaction)
    ensures CheckLatency(d) == Success(rec.latencyMs)
  {
    RoundedTimePasses(d, Dwell, rec.dwell);
    RoundedTimePasses(d, Interaction, rec.interaction);
    WholeLatencyPasses(d, rec.latencyMs);
  }

  /** When every field check yields the record's own value, normalising rebuilds the record. */
  lemma NormaliseRebuilds(d: FieldMap, rec: Record)
    requires RequiredText(d, Timestamp) == Success(rec.timestamp)
    requires CheckSensorId(d) == Success(rec.sensorId)
    requires CheckTime(d, Dwell) == Success(rec.dwell)
    requires CheckTime(d, Interaction) == Success(rec.interaction)
    requires CheckKind(d) == Success(rec.kind)
    requires CheckAction(d) == Success(rec.action)
    requires CheckLatency(d) == Success(rec.latencyMs)
    requires CheckStatus(d) == Success(rec.status)
    ensures AllFieldsPass(d) && Normalise(d) == rec
  {
  }

  /** A sensor id of three characters that is already stripped passes unchanged. */
  lemma StrippedIdPasses(raw: FieldMap, s: string)
    requires TextAt(raw, SensorId) == Some(s) && |s| >= MinSensorIdLength && Strip(s) == s
    ensures CheckSensorId(raw) == Success(s)
  {
  }

  lemma StrippedKindPasses(raw: FieldMap, s: string)
    requires TextAt(raw, Kind) == Some(s) && Strip(s) == s
    ensures CheckKind(raw) == Success(s)
  {
  }

  lemma StrippedStatusPasses(raw: FieldMap, s: string)
    requires TextAt(raw, Status) == Some(s) && Strip(s) == s
    ensures CheckStatus(raw) == Success(s)
  {
  }

  /** Once the fields rebuild a settled record, the cross-field rule keeps it as it is. */
  lemma ValidateRebuilds(d: FieldMap, rec: Record)
    requires AllFieldsPass(d) && Normalise(d) == rec
    requires rec.interaction <= rec.dwell && (rec.interaction > 0.0 ==> rec.kind != NotApplicable)
    ensures Validate(d) == Success(rec)
  {
  }

  /** A non-negative time already rounded to hundredths passes unchanged. */
  lemma RoundedTimePasses(raw: FieldMap, key: string, x: real)
    requires NumberAt(raw, key) == Some(x) && x >= 0.0 && Round2(x) == x
    ensures CheckTime(raw, key) == Success(x)
  {
  }

  /** A non-negative whole latency passes unchanged. */
  lemma WholeLatencyPasses(raw: FieldMap, n: int)
    requires NumberAt(raw, Latency) == Some(n as real) && n >= 0
    ensures CheckLatency(raw) == Success(n)
  {
    assert (n as real).Floor == n;
  }

  lemma KindIsStable(raw: FieldMap, rec: Record)
    requires TextAt(raw, Kind).Some?
    requires rec.kind == UnknownKind || rec.kind == Strip(raw[Kind].s)
    ensures Strip(rec.kind) == rec.kind
  {
    StripIdempotent(raw[Kind].s);
    LabelsAreTrimmed();
  }

  /** Neither constant label has whitespace at its ends. */
  lemma LabelsAreTrimmed()
    ensures Strip(UnknownKind) == UnknownKind && Strip(DefaultStatus) == DefaultStatus
  {
    UnknownKindIsTrimmed();
    DefaultStatusIsTrimmed();
  }

  lemma UnknownKindIsTrimmed()
    ensures Strip(UnknownKind) == UnknownKind
  {
    assert !IsSpace('D') && !IsSpace('o');
    StripOfTrimmed(UnknownKind);
  }

  lemma DefaultStatusIsTrimmed()
    ensures Strip(DefaultStatus) == DefaultStatus
  {
    assert !IsSpace('N') && !IsSpace('A');
    StripOfTrimmed(DefaultStatus);
  }

  lemma StatusIsStable(raw: FieldMap, rec: Record)
    requires Status in raw ==> raw[Status].Str?
    requires rec.status == (if Status in raw then Strip(raw[Status].s) else DefaultStatus)
    ensures Strip(rec.status) == rec.status
  {
    if Status in raw {
      StripIdempotent(raw[Status].s);
    } else {
      LabelsAreTrimmed();
    }
  }

  lemma StripShortId()
    ensures Strip(" ab ") == "ab"
  {
    assert !IsSpace('a') && " ab "[1..] == "ab ";
    assert TrimStart(" ab ") == "ab ";
    assert !IsSpace('b') && "ab "[..2] == "ab";
    assert TrimEnd("ab ") == "ab";
  }

  lemma StripKioskId()
    ensures Strip(" kiosk_1 ") == "kiosk_1"
  {
    assert !IsSpace('k') && " kiosk_1 "[1..] == "kiosk_1 ";
    assert TrimStart(" kiosk_1 ") == "kiosk_1 ";
    assert !IsSpace('1') && "kiosk_1 "[..7] == "kiosk_1";
    assert TrimEnd("kiosk_1 ") == "kiosk_1";
  }

  lemma StripNormal()
    ensures Strip("Normal") == "Normal"
  {
    assert !IsSpace('N') && !IsSpace('l');
    StripOfTrimmed("Normal");
  }

  lemma StripEmpty()
    ensures Strip("") == ""
  {
    StripOfTrimmed("");
  }

  /**
   * The length check sees the sensor id before it is stripped: " ab " passes
   * and is stored as "ab", two characters, which validation then refuses.
   */
  lemma ShortSensorIdAfterStrip()
    ensures var raw := RequiredOnly("2024-05-01 10:00:00", " ab ", 5.0, 1.0, "Normal");
      && Validate(raw).Success?
      && Validate(raw).value.sensorId == "ab"
      && Validate(Dump(Validate(raw).value)) == Failure(FieldErrors([FieldError(SensorId, TooShort)]))
  {
    ShortIdAccepted();
    ShortIdRefused();
  }

  const ShortIdRecord := Record("2024-05-01 10:00:00", "ab", 5.0, 1.0, "Normal", DefaultAction, DefaultLatency, DefaultStatus)

  lemma ShortIdAccepted()
    ensures Validate(RequiredOnly("2024-05-01 10:00:00", " ab ", 5.0, 1.0, "Normal")) == Success(ShortIdRecord)
  {
    var raw := RequiredOnly("2024-05-01 10:00:00", " ab ", 5.0, 1.0, "Normal");
    StripShortId();
    StripNormal();
    RoundWhole(5);
    RoundWhole(1);
    assert FieldsValid(raw);
  }

  lemma ShortIdRefused()
    ensures Validate(Dump(ShortIdRecord)) == Failure(FieldErrors([FieldError(SensorId, TooShort)]))
  {
    var d := Dump(ShortIdRecord);
    assert CheckSensorId(d) == Failure(TooShort);
    assert (0.0).Floor == 0;
    assert FieldErrorsOf(d) == [FieldError(SensorId, TooShort)];
  }

  /**
   * Only the exact label "N/A" is relabelled. An empty label stays empty even
   * though the interaction time is positive: 45 s dwell, 30 s interaction,
   * sensor " kiosk_1 " and label "" give sensor "kiosk_1" and label "".
   */
  lemma EmptyKindIsKept()
    ensures Validate(RequiredOnly("2024-05-01 10:00:00", " kiosk_1 ", 45.0, 30.0, ""))
         == Success(Record("2024-05-01 10:00:00", "kiosk_1", 45.0, 30.0, "", DefaultAction, DefaultLatency, DefaultStatus))
  {
    var raw := RequiredOnly("2024-05-01 10:00:00", " kiosk_1 ", 45.0, 30.0, "");
    StripKioskId();
    StripEmpty();
    RoundWhole(45);
    RoundWhole(30);
    assert FieldsValid(raw);
  }

  /**
   * The cross-field rule compares rounded times. An event whose interaction
   * time does not exceed its dwell time is never refused by it; but an event
   * whose interaction time exceeds its dwell time by less than the rounding
   * step can pass (1.004 s against 1.001 s).
   */
  lemma ConsistencyUsesRoundedTimes(raw: FieldMap)
    ensures FieldsValid(raw) && raw[Interaction].x <= raw[Dwell].x ==> Validate(raw).Success?
    ensures Validate(RequiredOnly("2024-05-01 10:00:00", "totem_praca", 1.001, 1.004, "Normal")).Success?
  {
    if FieldsValid(raw) && raw[Interaction].x <= raw[Dwell].x {
      Round2Monotone(raw[Interaction].x, raw[Dwell].x);
    }
    assert Hundredths(1.001) == 100;
    assert Hundredths(1.004) == 100;
  }

  /** Keys outside the contract play no part in validation. */
  lemma IgnoresUnknownKeys(raw: FieldMap, key: string, v: Value)
    requires key !in KnownKeys
    ensures Validate(raw[key := v]) == Validate(raw)
  {
    var raw' := raw[key := v];
    assert key != Timestamp && key != SensorId && key != Dwell && key != Interaction;
    assert key != Kind && key != Action && key != Latency && key != Status;
    assert RequiredText(raw', Timestamp) == RequiredText(raw, Timestamp);
    assert CheckSensorId(raw') == CheckSensorId(raw);
    assert CheckTime(raw', Dwell) == CheckTime(raw, Dwell);
    assert CheckTime(raw', Interaction) == CheckTime(raw, Interaction);
    assert CheckKind(raw') == CheckKind(raw);
    assert CheckAction(raw') == CheckAction(raw);
    assert CheckLatency(raw') == CheckLatency(raw);
    assert CheckStatus(raw') == CheckStatus(raw);
  }
}
