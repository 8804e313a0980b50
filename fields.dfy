/**
 * The dynamic values that travel between the generator, the schema and the
 * stores: a Python dict of field name to value, and a stored row's cells.
 */
module Fields {
  import opened Wrappers

  /** A Python value as the pipeline sees it: text, a number (int or float) or `None`. */
  datatype Value = Str(s: string) | Num(x: real) | Null

  /** A dict of field (or column) name to value. */
  type FieldMap = map<string, Value>

  const Timestamp := "timestamp"
  const SensorId := "id_sensor"
  const Dwell := "tempo_permanencia"
  const Interaction := "tempo_interacao"
  const Kind := "tipo_interacao"
  const Action := "acao_usuario"
  const Latency := "tempo_resposta_ms"
  const Status := "status_sistema"

  /** `d.get(key, default)`. */
  function GetOr(d: FieldMap, key: string, default: Value): (v: Value)
    ensures key in d ==> v == d[key]
    ensures key !in d ==> v == default
  {
    if key in d then d[key] else default
  }

  /** The text stored under `key`, when there is text there. */
  function TextAt(d: FieldMap, key: string): (r: Option<string>)
    ensures r.Some? <==> key in d && d[key].Str?
    ensures r.Some? ==> d[key] == Str(r.value)
  {
    if key in d && d[key].Str? then Some(d[key].s) else None
  }

  /** The number stored under `key`, when there is a number there. */
  function NumberAt(d: FieldMap, key: string): (r: Option<real>)
    ensures r.Some? <==> key in d && d[key].Num?
    ensures r.Some? ==> d[key] == Num(r.value)
  {
    if key in d && d[key].Num? then Some(d[key].x) else None
  }
}
