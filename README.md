# Kiosk interaction pipeline — a Dafny model

This project models the core of the FlexMedia kiosk ("totem") telemetry pipeline. A sensor reports an interaction event. The event goes through these steps:

1. The `InteracaoSchema` contract validates and normalises it.
2. A `DBConnector` stores it in a local SQLite file or a remote Oracle table.
3. The connector reads it back as a window of the newest rows, with exact duplicates removed.
4. A trainer fits a random forest on that window.
5. A predictor classifies a new (dwell time, interaction time) pair.

The first-generation connector under `src/database/` is modelled as well, next to the current one under `ai-totem/src/database/`.

The modules follow the program:

| module | file | models |
|---|---|---|
| `Strings`, `Numbers` | strings.dfy, numbers.dfy | `str.strip`, ASCII `lower`/`upper`, `round(x, 2)` (half-to-even on exact reals), numeric text |
| `Fields` | fields.dfy | dynamic values (text, number, `None`) and field maps |
| `Schemas` | schemas.dfy | `InteracaoSchema`, as an ordered pipeline returning `Result<Record, SchemaError>` |
| `Frames` | frames.dfy | rows with an `id`, frames, the newest-k window and `drop_duplicates` |
| `Backend` | backend.dfy | driver choice, connection failures, `LIMIT`/`FETCH FIRST`, column-name case, and the table as a class with an auto-increment id |
| `Connector` | connector.dfy | the current `DBConnector` (table FLEXMEDIA_LIVE_V3) |
| `LegacyConnector` | legacy_connector.dfy | the first `DBConnector` (tables `interacoes` / `interacoes_totem`) |
| `Artifact` | artifact.dfy | the pickled classifier file |
| `Trainer` | trainer.dfy | `train_model` |
| `Predictor` | predictor.dfy | `FlexPredictor` |

Modelling choices:

- **External failures.** Whether a store can be opened or reached is a `reachable` flag on each connector operation. The store's clock is a `clock` text. The shuffle that `train_test_split` draws from seed 42 is a parameter: a permutation that depends only on the number of rows.
- **The classifier's own methods.** `predict` and `predict_proba` are function parameters. They return `None` where they raise.
- **Stateful code is imperative.** The connectors' tables are `Backend.Table` objects. `init_db` and `salvar_interacao` change them through `modifies` clauses. `ler_dados` is a method proved equal to a pure specification (`Connector.Fetched`, `LegacyConnector.Read`), and the properties are proved about that specification. The artifact is a `ModelFile` object that the trainer overwrites. The predictor keeps the model in a `const` field that its constructor sets once.

Behaviour of the source worth knowing:

- **Order of checks.** Constraints are checked on the value as given, before the field validators strip or round it (ai-totem/src/core/schemas.py:13-37). So `" ab "` passes the three-character minimum and is stored as `"ab"`. Re-validating that stored record fails (`Schemas.ShortSensorIdAfterStrip`).
- **Relabelling.** Only the exact label `"N/A"` becomes `"Desconhecido"`. An empty label is kept (`Schemas.EmptyKindIsKept`). A missing label is a field error, not a relabelling (ai-totem/src/core/schemas.py:48-49).
- **Consistency rule.** The cross-field rule compares the rounded times. A raw interaction time of 1.004 s against a dwell of 1.001 s is accepted (`Schemas.ConsistencyUsesRoundedTimes`). The stored record still satisfies interaction ≤ dwell (ai-totem/src/core/schemas.py:33-45).
- **Timestamp format.** `timestamp` is any text. The format its field description names is not checked (ai-totem/src/core/schemas.py:12).
- **Negative limits.** With a negative limit, SQLite returns every row, so the "at most `limit` rows" promise holds only for `limit >= 0`. With a non-positive limit, Oracle returns no rows (ai-totem/src/database/connector.py:132-145).
- **Explicit driver name.** An explicit driver argument is used as given and is not lower-cased. Only the `DB_TYPE` setting is lower-cased (ai-totem/src/database/connector.py:27-31, `Backend.DriverCase`).
- **Remote timestamp.** The current connector's remote insert ignores the event's `timestamp` and uses the column default, the store's clock (ai-totem/src/database/connector.py:116-122).

## Model

| member | source | states |
|---|---|---|
| Strings.Strip | ai-totem/src/core/schemas.py:29-31 | the result has no whitespace at either end and is no longer than the input |
| Strings.StripCutsOnlySpace | ai-totem/src/core/schemas.py:29-31 | the result is a contiguous slice of the input, and everything cut away on either side is whitespace |
| Strings.StripIdempotent | ai-totem/src/core/schemas.py:29-31 | stripping twice is stripping once |
| Strings.LowerUpper | ai-totem/src/database/connector.py:148 | lower-casing an upper-cased lower-case name gives the name back |
| Numbers.Round2 | ai-totem/src/core/schemas.py:33-37 | result is a whole number of hundredths within half a hundredth of the input; on an exact tie the even number of hundredths is chosen |
| Numbers.Round2Idempotent | ai-totem/src/core/schemas.py:33-37 | rounding twice is rounding once |
| Numbers.Round2Monotone | ai-totem/src/core/schemas.py:33-45 | rounding preserves ≤, so the consistency rule never refuses an event whose raw interaction time is at most its dwell time |
| Numbers.ParseDecimal | ai-totem/src/ml_engine/trainer.py:31-32 | text is numeric only if it is non-empty and made of digits, a point and a sign; unsigned text parses to a non-negative number |
| Numbers.ParseWholeNumber | ai-totem/src/ml_engine/trainer.py:31-32 | digit text parses to the integer it spells |
| Numbers.ParseNegativeNumber | ai-totem/src/ml_engine/trainer.py:31-32 | a minus followed by digits parses to the negated integer |
| Numbers.ParseAcceptsExactly | ai-totem/src/ml_engine/trainer.py:31-32 | text is numeric exactly when, after an optional sign, it holds only digits and points, at most one point and at least one digit |
| Numbers.ParseFraction | ai-totem/src/ml_engine/trainer.py:31-32 | whole digits, a point and fraction digits parse to the whole value plus the fraction digits over their power of ten |
| Numbers.ParseMinusFraction | ai-totem/src/ml_engine/trainer.py:31-32 | behind a minus the same text parses to the negated value |
| Numbers.ParsePlusFraction | ai-totem/src/ml_engine/trainer.py:31-32 | behind a plus the same text parses to the value itself |
| Schemas.RequiredText | ai-totem/src/core/schemas.py:12 | a required text field passes exactly when present as text, and yields that text unchanged |
| Schemas.CheckSensorId | ai-totem/src/core/schemas.py:13-31 | `id_sensor` passes exactly when it is text of at least 3 characters as given; the value kept is the stripped text |
| Schemas.CheckTime | ai-totem/src/core/schemas.py:16-37 | a time passes exactly when it is a number ≥ 0 as given; the value kept is rounded to hundredths |
| Schemas.CheckKind | ai-totem/src/core/schemas.py:19-31 | `tipo_interacao` is required text, kept stripped |
| Schemas.CheckAction | ai-totem/src/core/schemas.py:22 | `acao_usuario` defaults to "Nenhuma" and is otherwise kept as given |
| Schemas.CheckLatency | ai-totem/src/core/schemas.py:23 | `tempo_resposta_ms` defaults to 0; when present it must be a whole number ≥ 0 |
| Schemas.CheckStatus | ai-totem/src/core/schemas.py:24-31 | `status_sistema` defaults to "N/A" (not stripped) and is otherwise kept stripped |
| Schemas.FieldErrorsOf | ai-totem/src/core/schemas.py:11-24 | the list of field errors is empty exactly when every field passes |
| Schemas.Normalise | ai-totem/src/core/schemas.py:26-37 | with every field passing, the record holds each field's normalised value |
| Schemas.CheckConsistency | ai-totem/src/core/schemas.py:40-51 | refuses exactly when interaction > dwell, with both values in the error; otherwise only the kind may change, and only "N/A" with interaction > 0 becomes "Desconhecido" |
| Schemas.FieldsValid | ai-totem/src/core/schemas.py:12-24 | a declarative description of an acceptable raw map, equivalent to the field pipeline |
| Schemas.Validate | ai-totem/src/core/schemas.py:12-51 | field errors (never an empty list) exactly when some field is unacceptable as given; otherwise refusal exactly when rounded interaction > rounded dwell; otherwise the stripped, rounded, defaulted and relabelled record, with interaction ≤ dwell |
| Schemas.Dump | ai-totem/src/core/schemas.py:12-24 | the dumped record holds exactly the eight fields, with the record's values |
| Schemas.RejectsOutOfRange | ai-totem/src/core/schemas.py:13-23 | a short sensor id, a negative time or a negative latency is refused, and the error names the field and the constraint |
| Schemas.ValidateIdempotent | ai-totem/src/core/schemas.py:27-51 | re-validating the dump of an accepted record returns the same record whenever the stored sensor id still has 3 characters |
| Schemas.AcceptedIsSettled | ai-totem/src/core/schemas.py:27-51 | an accepted record (whose sensor id has 3 characters) is stripped, rounded to hundredths, non-negative, consistent, never "N/A" beside a positive interaction time, with a whole non-negative latency |
| Schemas.SettledRoundTrips | ai-totem/src/core/schemas.py:12-51 | every record of that settled shape is exactly what validating its dump returns |
| Schemas.ShortSensorIdAfterStrip | ai-totem/src/core/schemas.py:13-31 | " ab " is accepted and stored as "ab", and re-validating that record fails with TooShort |
| Schemas.ShortIdAccepted | ai-totem/src/core/schemas.py:13-31 | the event with sensor id " ab " validates to the record with sensor id "ab" and every default |
| Schemas.ShortIdRefused | ai-totem/src/core/schemas.py:13 | the dump of that record fails on the sensor id only |
| Schemas.EmptyKindIsKept | ai-totem/src/core/schemas.py:47-49 | an empty label stays empty even with positive interaction; the sensor id is stripped |
| Schemas.ConsistencyUsesRoundedTimes | ai-totem/src/core/schemas.py:36-45 | raw interaction ≤ dwell is always accepted; 1.004 s against 1.001 s is accepted too |
| Schemas.IgnoresUnknownKeys | ai-totem/src/core/schemas.py:6-24 | keys outside the eight fields do not affect validation |
| Frames.Newest | ai-totem/src/database/connector.py:133 | the window holds the last k rows, newest first |
| Frames.NewestAreTopIds | ai-totem/src/database/connector.py:133-145 | the window is in strictly descending id order, is drawn from the table, and every row left out is older than every row kept |
| Frames.DropDuplicates | ai-totem/src/database/connector.py:152-158 | never longer than its input, same set of cell contents (every row has a representative), no two rows with equal contents |
| Frames.DropDuplicatesIsSubsequence | ai-totem/src/database/connector.py:152-158 | the output is a subsequence of the input, so relative order is kept |
| Frames.SubsequenceMembers | ai-totem/src/database/connector.py:152-158 | a subsequence is no longer than, and drawn from, its sequence |
| Frames.SubsequenceDescending | ai-totem/src/database/connector.py:144-158 | a subsequence of a descending-id sequence is descending |
| Frames.DropDuplicatesKeepsFirst | ai-totem/src/database/connector.py:152-158 | a row whose contents do not occur earlier is kept |
| Frames.DropDuplicatesDropsLater | ai-totem/src/database/connector.py:152-158 | a row whose contents already occurred earlier is dropped (ids being unique) |
| Frames.DropDuplicatesOfDistinct | ai-totem/src/database/connector.py:152-158 | without duplicates nothing is removed |
| Frames.DropDuplicatesIdempotent | ai-totem/src/database/connector.py:152-158 | de-duplicating twice is de-duplicating once |
| Backend.DriverNamed | ai-totem/src/database/connector.py:34-37 | only the exact names "sqlite" and "oracle" select a store |
| Backend.ChooseDriver | ai-totem/src/database/connector.py:27-31 | a non-empty argument is used as given; otherwise the lower-cased `DB_TYPE` setting, and "sqlite" when it is unset |
| Backend.DriverCase | ai-totem/src/database/connector.py:27-31 | "SQLite" in the setting selects the local store, but passed as the argument it names no driver |
| Backend.LowerAll | ai-totem/src/database/connector.py:148 | every column name is lower-cased |
| Backend.ReadColumnsAreDeclared | ai-totem/src/database/connector.py:148 | whatever case the store reports, the frame's columns are the declared lower-case names |
| Backend.FetchCount | ai-totem/src/database/connector.py:133-145 | at most the table size, at most `limit` when `limit >= 0`, exactly `limit` when it fits; a negative limit means all rows locally and none remotely |
| Backend.Table.Create | ai-totem/src/database/connector.py:50-62 | the table exists afterwards with its rows and id counter unchanged |
| Backend.Table.Insert | ai-totem/src/database/connector.py:52 | the new row is appended with the next id, larger than every stored id |
| Connector.GetConnection | ai-totem/src/database/connector.py:33-42 | a connection opens exactly for a reachable local store or a reachable remote store with its library; a missing library and an unknown driver are distinct failures |
| Connector.InsertedCells | ai-totem/src/database/connector.py:99-122 | the row is written exactly when the keys the store reads are present; it holds the eight data columns with the given values, "Nenhuma"/0/"N/A" for missing optional keys, and the store's clock as the remote timestamp |
| Connector.DumpIsStoredAsIs | ai-totem/src/database/connector.py:99-122 | a validated, dumped event is stored column for column (remotely with the store's timestamp) |
| Connector.Read | ai-totem/src/database/connector.py:129-161 | the frame has the declared columns, at most `limit` rows (for `limit >= 0`), descending ids, no duplicate contents, only stored rows, and a representative of every fetched row |
| Connector.Fetched | ai-totem/src/database/connector.py:129-163 | the empty frame exactly when the connection or the table is missing; never more than `limit` rows |
| Connector.ReadAfterInsert | ai-totem/src/database/connector.py:110-133 | reading one row right after an insert returns exactly the inserted row |
| Connector.DBConnector.constructor | ai-totem/src/database/connector.py:27-31 | the driver is chosen once, from the argument or the setting |
| Connector.DBConnector.InitDb | ai-totem/src/database/connector.py:44-86 | fails exactly when no connection opens; otherwise the table exists afterwards; rows are never touched, so a second call changes nothing |
| Connector.DBConnector.CountTotal | ai-totem/src/database/connector.py:88-97 | the number of stored rows, or 0 on any failure |
| Connector.DBConnector.SaveInteraction | ai-totem/src/database/connector.py:99-127 | appends exactly one row with a fresh, larger id when the connection, the table and the keys are there; otherwise the table is unchanged |
| Connector.DBConnector.ReadData | ai-totem/src/database/connector.py:129-163 | returns the frame `Fetched` describes |
| Connector.FirstStartUp | ai-totem/src/database/connector.py:44-127 | on a store without the table, `init_db` succeeds exactly when a connection opens, and after one save the store counts one row exactly when the connection opened and the event had the keys the store reads, none otherwise |
| LegacyConnector.GetConnection | src/database/connector.py:33-49 | the remote store refuses incomplete credentials (any of user, password, DSN unset or empty) before connecting; the local store needs none |
| LegacyConnector.InsertedCells | src/database/connector.py:82-100 | the row is written exactly when the keys the store reads are present; locally the five fields as given, remotely the interaction time under `valor` and the store's clock as timestamp |
| LegacyConnector.Selected | src/database/connector.py:114-118 | a read row has the five local column names, whichever store it came from |
| LegacyConnector.SavedFieldsReadBack | src/database/connector.py:96-117 | what is saved is what is read back, the interaction time included, even after passing through `valor` |
| LegacyConnector.Read | src/database/connector.py:107-126 | exactly as many rows as fetched (no de-duplication), descending ids, each the selected view of the stored row |
| LegacyConnector.DuplicatesAreKept | src/database/connector.py:107-126 | the same event saved twice is read back twice |
| LegacyConnector.DBConnector.constructor | src/database/connector.py:27-31 | the driver is chosen once; the table is `interacoes` locally and `interacoes_totem` otherwise |
| LegacyConnector.DBConnector.InitDb | src/database/connector.py:51-68 | only the local driver creates its table, failing when no connection opens; other drivers do nothing and cannot fail |
| LegacyConnector.DBConnector.CountTotal | src/database/connector.py:70-80 | rows of the driver's table, or 0 on any failure |
| LegacyConnector.DBConnector.SaveInteraction | src/database/connector.py:82-105 | appends exactly one row with a fresh, larger id, or leaves the table unchanged |
| LegacyConnector.DBConnector.ReadData | src/database/connector.py:107-128 | returns `Read` of the stored rows, or the empty frame on any failure |
| Artifact.ModelFile.Write | ai-totem/src/ml_engine/trainer.py:55-59 | the file afterwards holds exactly the new classifier, whatever it held before |
| Trainer.ToNumeric | ai-totem/src/ml_engine/trainer.py:31-32 | numbers are kept, numeric text is parsed, anything else (and a missing value) becomes 0 |
| Trainer.CoercionOfText | ai-totem/src/ml_engine/trainer.py:31-32 | digit text counts as its number; text with a letter, and a missing value, count as 0 |
| Trainer.Matrix | ai-totem/src/ml_engine/trainer.py:34-37 | one sample per row: (`tempo_permanencia`, `tempo_interacao`) after coercion, in that order |
| Trainer.Targets | ai-totem/src/ml_engine/trainer.py:35-38 | one label per row, the row's `tipo_interacao` |
| Trainer.TestCount | ai-totem/src/ml_engine/trainer.py:41 | the test part is the ceiling of 0.3 n |
| Trainer.TrainTestSplit | ai-totem/src/ml_engine/trainer.py:41 | the test part has ⌈0.3 n⌉ pairs, the training part the rest |
| Trainer.SplitPartitionsRows | ai-totem/src/ml_engine/trainer.py:40-41 | every row is in exactly one part, and each pair is one row's features with that row's label |
| Trainer.Train | ai-totem/src/ml_engine/trainer.py:23-49 | a classifier exactly when at least 50 rows were read and none lacks a label (a `None` label makes the library raise before anything is written): a forest of 100 trees with seed 42, fitted on the n − ⌈0.3 n⌉ ≥ 35 rows the permutation puts after the test part, each as its own features and label |
| Trainer.TrainModel | ai-totem/src/ml_engine/trainer.py:15-60 | trains exactly when the read window (at most 1000 newest de-duplicated rows) has at least 50 rows and every one has a label; then the artifact is replaced by `Train` of that window, otherwise it is left as it was |
| Predictor.Max | ai-totem/src/ml_engine/predictor.py:31 | the largest entry, and one of the entries |
| Predictor.Classify | ai-totem/src/ml_engine/predictor.py:17-34 | no model gives ("Modelo Não Treinado", 0); otherwise the scorer sees exactly one sample; a failure gives ("Erro ML", 0), and success gives the first prediction with the largest probability |
| Predictor.ConfidenceOfOneRow | ai-totem/src/ml_engine/predictor.py:29-32 | with one row of probabilities the confidence is that row's maximum |
| Predictor.ConfidenceIsAProbability | ai-totem/src/ml_engine/predictor.py:29-32 | for a distribution over k classes the confidence lies between 1/k and 1 |
| Predictor.FlexPredictor.constructor | ai-totem/src/ml_engine/predictor.py:7-15 | the model is whatever the artifact held at construction (none when it is missing) and never changes afterwards |
| Predictor.FlexPredictor.Predict | ai-totem/src/ml_engine/predictor.py:17-34 | returns what `Classify` describes for the loaded model |
| Predictor.PredictBeforeTraining | ai-totem/src/ml_engine/predictor.py:7-20 | with no artifact file, every prediction is ("Modelo Não Treinado", 0) whatever the scorers would say |

## Left out

- Lax input coercion by the validation library is only partly modelled. Whole floats are accepted for the integer latency field, as in the source. Numeric text for a number field is refused, where the library would convert it.
- Python floats are modelled as exact reals. This leaves out binary floating point: rounding of doubles, NaN and infinities, the 0.3·n product in the split, and NaN inside `predict_proba`.
- Trainer.ToNumeric: `pd.to_numeric` also accepts exponents, surrounding whitespace and other spellings. The model accepts plain signed decimals only; any other text becomes 0.
- Strings.Lower: case mapping covers ASCII letters only. Python's full Unicode case mapping is left out; every column name is ASCII.
- Store-side column types are not modelled: SQLite type affinity, Oracle `NUMBER(10,2)`/`VARCHAR2` widths, and the remote `valor NUMBER(1)` column rounding a value to a whole number and refusing values ≥ 9.5. Stored cells are the values passed in.
- The first-generation connector does not create its remote table (src/database/connector.py:51-68). That table is assumed to exist with the columns its inserts and selects name (`Backend.Table.Created`). A missing column fails like any other query, and that failure is left out.
- The default `limit=50` of `ler_dados` (ai-totem/src/database/connector.py:129, src/database/connector.py:107) is not modelled. Every modelled read passes its limit; the trainer passes 1000. Callers that rely on the default are not part of this model.
- Failures of a `CREATE` other than "table already exists" are not modelled. Failures of `commit`, `close` and `os.makedirs` are not modelled either.
- Only a reachable or unreachable store is modelled. Concurrency, gaps in identity values and rollbacks are left out.
- Messages are left out: printing, the configuration banner, the accuracy score and the classification report of the trainer. Error message wording is left out too; errors are datatypes.
- Trainer.Train: only a missing label is modelled as making the library raise. Other label mixes that it refuses, such as numbers beside text, still train in the model; both stores declare the label column as text.
- Fitting and scoring inside the learning library are left out. The fitted forest is known only by its settings and training samples; `predict` and `predict_proba` are parameters.
- The seeded shuffle is left out. `train_test_split` draws it from `random_state=42`; the model takes any permutation that depends only on the row count.
- Pickle is left out: serialisation itself, and the exceptions from `pickle.load` on a corrupt artifact (which the source does not handle).
- Callers are not part of this model: the dashboards, the simulators, the seeder and the configuration loader.
