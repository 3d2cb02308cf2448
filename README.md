# IoT samples: verified models of five cores

This project models five small pieces of an IoT sample repository in Dafny and
proves properties of each model. One module covers each piece:

- **JwtApi** (`jwt_api.dfy`) covers the JWT-protected sensor REST API. It keeps
  three in-memory dictionaries: users, sensors and telemetry. It models the
  `Authorization` header check, registration, login, listing and creating
  sensors, and reading and appending telemetry. `Server` is a class whose fields
  are the three dictionaries. Its methods update them in place, and each method
  is proved equal to a pure step function (`RegisterSpec`, `CreateSensorSpec`,
  `AddSensorDataSpec`). Each method also keeps the store invariant `Valid`:
  user ids are exactly 1..n, sensor keys are exactly `sensor_1`..`sensor_n`,
  and every sensor has one telemetry list.
- **Period** (`period.dfy`) covers `parse_period` of the time-series API and the
  query window each endpoint derives from it. This includes Python's `int()` on
  the prefix and the range of `timedelta`.
- **DataGenerator** (`generator.dfy`) covers the
  synthetic-data generator: the sensor ids, the count arithmetic, the walk over
  timestamps of each sensor, the batching loop with its final flush, the two
  exceptions that can end the loop early, and the argument checks of `main`.
  Times are whole seconds since 0001-01-01, so `datetime.max` is a constant.
  `GenerateReadings` keeps the source's loops and buffer; its inner loop, one
  sensor's walk, is the method `WalkSensor`. It is proved equal to `Expected`.
  Without an exception that inserts exactly `Chunks(Readings(..), k)`: the
  readings cut into batches of `k`. After a ZeroDivisionError in the progress
  line or an OverflowError past year 9999, it inserts only the full batches
  flushed before it. The run then ends as `Aborted`, with exit status 0.
- **CertInspector** (`certificate.dfy`) covers the certificate inspector: the
  validity classification, the self-signed check, the key-usage line, the
  extension lines, the SHA-256/SHA-1 fingerprints and the saved thumbprint.
- **HouseFunction** (`house.dfy`) covers the house HTTP function of the
  serverless platform. A GET queries Cosmos DB and strips the system properties
  in place, in an `array`. A POST stores a house record. The handler maps each
  error to a status code.

Each model takes the outside world as parameters:

- password hashing, token signing and token verification;
- the Cosmos query result and whether an insert succeeds;
- the current time, and whether the database connection succeeds.

Helper modules:

- `Wrappers`: `Option`.
- `PyJson`: JSON values, with Python truthiness, `len` and hashability.
- `Decimal`: decimal numerals and zero padding, with their round-trip lemmas.
- `Text`: `str.split` on one character and `str.join`.

## Model

| member | source | states |
|---|---|---|
| JwtApi.ParseAuthorization | 17-jwt-rest-api/app.py:76-86 | no header is Absent; a header is Malformed iff it has no space; a token found is non-empty and has no space |
| JwtApi.TokenAfterFirstSpace | 17-jwt-rest-api/app.py:81 | the token is the text between the first space and the next space or the end; an empty field counts as a missing header |
| JwtApi.SchemeWordIgnored | 17-jwt-rest-api/app.py:79-81 | the word before the first space is never checked: any two scheme words give the same result |
| JwtApi.Authenticate | 17-jwt-rest-api/app.py:72-101 | 401 "Missing Authorization header" without a header; 401 "Invalid token format" without a space; 401 "Token has expired" for an expired token and 401 "Invalid token" for one that fails verification; 500 for a decoded payload without both claims; authorized iff the token decodes and has user_id and username, and then the caller is exactly the payload's user_id and username |
| JwtApi.SensorKey | 17-jwt-rest-api/app.py:268 | a sensor key is `sensor_` followed by the decimal numeral of its number |
| JwtApi.SensorKeyInjective | 17-jwt-rest-api/app.py:268 | two sensor numbers give the same `sensor_<n>` key iff they are equal |
| JwtApi.EmptyStoreValid | 17-jwt-rest-api/app.py:27-29 | the three empty dictionaries satisfy the store invariant |
| JwtApi.NextSensorKeyFresh | 17-jwt-rest-api/app.py:268 | under the invariant, `sensor_<count+1>` is never already a key |
| JwtApi.RegisterSpec | 17-jwt-rest-api/app.py:132-163 | a rejection changes no store. The checks run in order: 400 missing fields, then 409 existing user, then 400 short password. Success iff all fields are present, the username is new and the password is a string of at least 6 characters. A success adds exactly one user, with id count+1 and the hashed password. Existing users, sensors and telemetry are unchanged |
| JwtApi.NewUserKeepsValid | 17-jwt-rest-api/app.py:151-157 | adding a user numbered count+1 keeps the user ids exactly 1..n and distinct |
| JwtApi.RegisterPreservesValid | 17-jwt-rest-api/app.py:132-163 | every registration, accepted or not, preserves the store invariant |
| JwtApi.Login | 17-jwt-rest-api/app.py:184-210 | success iff the user exists and the password hashes to the stored hash; an unknown user and a wrong password both get the same 401 "Invalid credentials"; the token signs the user's id, name, issue time and expiry; expires_in is minutes*60 |
| JwtApi.RegisterThenLogin | 17-jwt-rest-api/app.py:151-157 | a user who has just registered can log in with the same password |
| JwtApi.OwnedSensors | 17-jwt-rest-api/app.py:239-243 | keeps exactly the sensors whose owner is the caller, with their records unchanged |
| JwtApi.GetSensors | 17-jwt-rest-api/app.py:234-248 | a rejected token gives the decorator's reply; otherwise the reply lists exactly the caller's sensors, and count is their number |
| JwtApi.CreateSensorSpec | 17-jwt-rest-api/app.py:264-287 | 400 for missing name/type/location with no change; otherwise the sensor is stored under `sensor_<count+1>` with the caller as owner, its telemetry starts empty, and users are unchanged |
| JwtApi.NewSensorKeepsValid | 17-jwt-rest-api/app.py:268-276 | the new key is fresh, and the keys stay exactly sensor_1..sensor_n |
| JwtApi.CreatedSensorStep | 17-jwt-rest-api/app.py:268-282 | for an authorized caller and a complete body, create_sensor stores the new record and an empty telemetry list under the next key, and the invariant holds afterwards |
| JwtApi.CreateSensorAddsOne | 17-jwt-rest-api/app.py:267-282 | in a valid store a created sensor overwrites nothing, the sensor count grows by exactly one, and the invariant holds afterwards |
| JwtApi.SensorAccess | 17-jwt-rest-api/app.py:295-301 | 404 for an unknown sensor; then 403 iff the caller does not own it; access granted iff the sensor exists and is the caller's |
| JwtApi.GetSensorData | 17-jwt-rest-api/app.py:292-311 | 401 from the token check, then 404 and 403 from the access checks; otherwise the sensor's points, its name and their count |
| JwtApi.AddSensorDataSpec | 17-jwt-rest-api/app.py:316-354 | token, then 404, then 403, and only then the 400 for a missing value; no rejection changes state; a success appends one point whose unit defaults to "unknown" |
| JwtApi.AddSensorDataAppendsOne | 17-jwt-rest-api/app.py:342-348 | in a valid store the reply is one of 201/400/403/404 once authorized; a success appends exactly one point at the end of that sensor's list; every other list is unchanged; the invariant holds afterwards |
| JwtApi.Server.constructor | 17-jwt-rest-api/app.py:27-29 | starts with three empty dictionaries, which satisfy the invariant |
| JwtApi.Server.Register | 17-jwt-rest-api/app.py:132-163 | the in-place update equals RegisterSpec on the old state and keeps the invariant |
| JwtApi.Server.CreateSensor | 17-jwt-rest-api/app.py:264-287 | the in-place update equals CreateSensorSpec on the old state and keeps the invariant |
| JwtApi.Server.AddSensorData | 17-jwt-rest-api/app.py:316-354 | the in-place append equals AddSensorDataSpec on the old state and keeps the invariant |
| Period.UnitSeconds | 18-timescaledb-terraform/app/api.py:47-63 | only the letters h, d, w, m and y name a unit |
| Period.ParsePeriod | 18-timescaledb-terraform/app/api.py:34-67 | never fails: the result is always in timedelta's range; empty and one-character strings give one day; any other result needs a known unit and an integer prefix |
| Period.ParseIntOfNumeral | 18-timescaledb-terraform/app/api.py:54 | `int()` reads a decimal numeral back as its value |
| Period.ParseIntOfNegativeNumeral | 18-timescaledb-terraform/app/api.py:54 | `int()` accepts a leading minus sign, giving the negative value |
| Period.ParsePeriodOf | 18-timescaledb-terraform/app/api.py:53-67 | an integer prefix n and a known unit of u seconds give n*u seconds when timedelta can hold it, and one day when it overflows |
| Period.ParsePeriodOfNumeral | 18-timescaledb-terraform/app/api.py:47-67 | for every count n and known unit of u seconds, `<n><unit>` gives n*u seconds when timedelta can hold n*u seconds, and one day when it cannot |
| Period.ParsePeriodOfNegativeNumeral | 18-timescaledb-terraform/app/api.py:53-67 | `-<n><unit>` gives -n*u seconds when timedelta can hold it, and one day when it cannot |
| Period.MonthsAndYears | 18-timescaledb-terraform/app/api.py:57-60 | `m` means 30 days, never minutes, in either case; `y` means 365 days |
| Period.UnitCaseInsensitive | 18-timescaledb-terraform/app/api.py:55 | the last letter is lower-cased, so `2W` is the same as `2w` |
| Period.UnknownUnitIsOneDay | 18-timescaledb-terraform/app/api.py:64-65 | an unknown unit letter gives one day |
| Period.NonIntegerPrefixIsOneDay | 18-timescaledb-terraform/app/api.py:53-54 | a prefix that `int()` rejects gives one day, whatever the unit |
| Period.LoneLetterIsOneDay | 18-timescaledb-terraform/app/api.py:66-67 | a lone unit letter has an empty prefix and gives one day |
| Period.DefaultPeriods | 18-timescaledb-terraform/app/api.py:154-305 | each endpoint's default string (1d, 1w, 1m, 1y for raw, hourly, daily, monthly) parses to one day, one week, 30 days and 365 days respectively |
| Period.WindowStart | 18-timescaledb-terraform/app/api.py:154-157 | the window starts `now - parse_period(p)` when that is a datetime, and is None (an uncaught overflow) otherwise |
| Period.DefaultWindows | 18-timescaledb-terraform/app/api.py:154-308 | with no period parameter, the raw, hourly, daily and monthly windows reach back 1 day, 1 week, 30 days and 365 days |
| DataGenerator.SensorIdShape | 18-timescaledb-terraform/generate_data.py:176 | every id is `sensor_` followed by at least three decimal digits |
| DataGenerator.SensorIds | 18-timescaledb-terraform/generate_data.py:176 | n ids, the i-th being `sensor_` followed by i zero-padded to three digits |
| DataGenerator.SensorIdInjective | 18-timescaledb-terraform/generate_data.py:176 | two sensor numbers give the same id iff they are equal |
| DataGenerator.SensorIdsDistinct | 18-timescaledb-terraform/generate_data.py:176 | no two sensors share an id |
| DataGenerator.FirstSensorIds | 18-timescaledb-terraform/generate_data.py:176 | two sensors are sensor_001 and sensor_002 |
| DataGenerator.WalkTimes | 18-timescaledb-terraform/generate_data.py:190-193 | the j-th reading of a sensor is at start + j*interval, strictly before the end bound, and carries that sensor's id |
| DataGenerator.WalkLength | 18-timescaledb-terraform/generate_data.py:193-211 | a sensor's walk holds ceil((end - start)/interval) readings, and none when it starts at or after the end |
| DataGenerator.WalkCoversAnnounced | 18-timescaledb-terraform/generate_data.py:161 | a walk over at least `days` days has at least `(days*86400) // interval` readings |
| DataGenerator.ReadingsLength | 18-timescaledb-terraform/generate_data.py:190-191 | every sensor restarts at the start time, so the readings number sensors times the per-sensor count |
| DataGenerator.GeneratesAtLeastAnnounced | 18-timescaledb-terraform/generate_data.py:161-162 | when the checks pass and the run ends no earlier than it started, at least `total_readings` readings are generated |
| DataGenerator.FlushSize | 18-timescaledb-terraform/generate_data.py:200 | flushes happen at batch_size readings when it is at least 1, and at every reading otherwise |
| DataGenerator.FlattenChunks | 18-timescaledb-terraform/generate_data.py:195-215 | the batches, concatenated, are the readings in order, with nothing lost or duplicated; every batch but the last is full, and none is empty |
| DataGenerator.SingletonChunks | 18-timescaledb-terraform/generate_data.py:199-202 | with a batch size of 1 or less each reading is a batch of its own |
| DataGenerator.BatchedIsChunks | 18-timescaledb-terraform/generate_data.py:199-215 | any batching into full batches with one shorter last batch is the chunking |
| DataGenerator.StopAfter | 18-timescaledb-terraform/generate_data.py:199-211 | the c-th reading raises ZeroDivisionError iff the progress line divides as written, the announced total is 0, and c fills a batch at 10000 readings or more; otherwise it raises OverflowError iff the next instant passes `datetime.max` |
| DataGenerator.FirstStop | 18-timescaledb-terraform/generate_data.py:190-211 | the first reading after which the loop raises, with no reading before it raising; None iff no reading raises |
| DataGenerator.FullPart | 18-timescaledb-terraform/generate_data.py:199-202 | the readings in full batches among the first n: n less its remainder by the flush size |
| DataGenerator.Expected | 18-timescaledb-terraform/generate_data.py:184-215 | without an exception, every reading is inserted chunked by the flush size and counted; after one, the count stops at the reading that raised, no reading before it raised, and the exception is that reading's |
| DataGenerator.ExpectedWithoutStop | 18-timescaledb-terraform/generate_data.py:190-215 | when no reading raises, all readings are inserted in chunks and the final flush runs |
| DataGenerator.ExpectedAtStop | 18-timescaledb-terraform/generate_data.py:199-211 | when the c-th reading is the first to raise, only the full batches among the first c readings are inserted; the buffer is lost |
| DataGenerator.InsertedArePrefix | 18-timescaledb-terraform/generate_data.py:184-251 | whatever happens, the inserted batches, concatenated, are a prefix of the readings in order, and all of them but the last are full |
| DataGenerator.WalkSensor | 18-timescaledb-terraform/generate_data.py:190-211 | one sensor's loop: what was emitted before stays in front, and the emitted readings are a prefix of it plus that sensor's walk; without an exception they gain the whole walk; with one, the loop stops at the first reading that raises; every inserted batch is full; the buffer stays below the batch size |
| DataGenerator.ReadingsPrefix | 18-timescaledb-terraform/generate_data.py:190-191 | the readings of the first i sensors come before those of the rest |
| DataGenerator.StoppedEarly | 18-timescaledb-terraform/generate_data.py:199-211 | when a reading raises, the count, the batches inserted so far and the exception are exactly what Expected gives |
| DataGenerator.GenerateReadings | 18-timescaledb-terraform/generate_data.py:184-215 | the loops, with their buffer, leave exactly Expected of all readings (sensors in order, each walking from the start): the chunks of all of them, or after an exception the full batches before it |
| DataGenerator.CheckArguments | 18-timescaledb-terraform/generate_data.py:293-303 | passes iff days, sensors and interval are all at least 1; the first failing check names its argument; batch size is not checked |
| DataGenerator.RunSpec | 18-timescaledb-terraform/generate_data.py:161-251 | a failed check exits with status 1 with its message; a failed connection exits with status 1; a start before 0001-01-01, or more than 999999999 days, crashes; otherwise the run generates or aborts, and what it inserted, concatenated, is a prefix of the readings from `now - days` on |
| DataGenerator.Finish | 18-timescaledb-terraform/generate_data.py:213-219 | Generated with the count iff no exception was raised; otherwise Aborted with that exception; the batches are the ones inserted either way |
| DataGenerator.Run | 18-timescaledb-terraform/generate_data.py:293-311 | the whole script, with its checks, the connection, the start time and the loops, ends exactly as RunSpec says |
| DataGenerator.ReadingsInWindow | 18-timescaledb-terraform/generate_data.py:190-211 | every reading is at or after the start time and before the end bound |
| DataGenerator.GuardedInsertsAll | 18-timescaledb-terraform/generate_data.py:184-219 | with the progress division guarded, a run that stays a step short of `datetime.max` inserts every reading, chunked by the batch size |
| DataGenerator.OneStepReadings | 18-timescaledb-terraform/generate_data.py:190-211 | when the end bound is within one interval of the start, each sensor gives exactly one reading, at the start time |
| DataGenerator.NothingAnnounced | 18-timescaledb-terraform/generate_data.py:161-162 | with one day and an interval beyond a day, the announced total is 0 |
| DataGenerator.RunLoads | 18-timescaledb-terraform/generate_data.py:161-251 | a run that passes its checks and connects ends as its loops do |
| DataGenerator.TenthBatchDividesByZero | 18-timescaledb-terraform/generate_data.py:204-206 | with a total of 0, a batch size of 1000 and more than 10000 one-reading sensors, the loop aborts with a division by zero after inserting the first 10000 readings in ten batches |
| DataGenerator.SameTimeNoStop | 18-timescaledb-terraform/generate_data.py:204-211 | before 10000 readings, readings a step short of `datetime.max` never raise |
| DataGenerator.ProgressDividesByZero | 18-timescaledb-terraform/generate_data.py:161-206 | as written, `--days 1`, more than 10000 sensors, an interval beyond a day and the default batch size announce 0 readings, generate one per sensor, and abort with ZeroDivisionError after inserting only the first 10000 |
| CertInspector.Classify | 16-iot-certificates/inspect_certificate.py:88-94 | not yet valid iff now < not_before; expired iff now > not_after otherwise; valid iff not_before <= now <= not_after |
| CertInspector.DaysRemainingIsFloor | 16-iot-certificates/inspect_certificate.py:93 | the days remaining are the whole days before not_after: d days fit and d+1 do not, so d is never negative |
| CertInspector.LastInstantIsValid | 16-iot-certificates/inspect_certificate.py:88-92 | both boundary instants count as valid, the last one with 0 days remaining |
| CertInspector.SetPositionsAreSet | 16-iot-certificates/inspect_certificate.py:154-161 | only positions of set flags are listed |
| CertInspector.SetPositionsIncrease | 16-iot-certificates/inspect_certificate.py:154-161 | the listed positions are strictly increasing |
| CertInspector.SetPositionsComplete | 16-iot-certificates/inspect_certificate.py:154-161 | every set flag's position is listed |
| CertInspector.SelectAtPositions | 16-iot-certificates/inspect_certificate.py:154-161 | the selected labels are the labels at the set positions, in that order |
| CertInspector.SelectSkip | 16-iot-certificates/inspect_certificate.py:154-161 | labels whose flags are unset do not appear |
| CertInspector.UsageListMembers | 16-iot-certificates/inspect_certificate.py:154-161 | the list is the labels of the set flags, at strictly increasing positions in the order of the seven appends; each label is listed iff its flag is set; nothing else is listed and nothing is listed twice |
| CertInspector.UsageListIgnoresEncipherDecipher | 16-iot-certificates/inspect_certificate.py:154-161 | encipher_only and decipher_only never change the list |
| CertInspector.UsageLineExamples | 16-iot-certificates/inspect_certificate.py:154-162 | CRL signing alone prints that one label after the indent; with none of the seven set, only the indent is printed |
| CertInspector.UsageLineTwoLabels | 16-iot-certificates/inspect_certificate.py:154-162 | two labels are joined by ", ", in the order of the appends: key encipherment before content commitment |
| CertInspector.ExtensionLines | 16-iot-certificates/inspect_certificate.py:138-169 | an extension prints its heading, its detail lines and one more line iff it is critical |
| CertInspector.CriticalMarked | 16-iot-certificates/inspect_certificate.py:168-169 | an extension's lines end with "(CRITICAL)" iff it is critical |
| CertInspector.PathLengthShown | 16-iot-certificates/inspect_certificate.py:146-150 | basic constraints print a "Path Length" line iff the path length is not None, with that value |
| CertInspector.SubjectAltNameShownAsValue | 16-iot-certificates/inspect_certificate.py:138-166 | the library names the subject alternative name `subjectAltName`, so the test on line 142 never holds: the extension is headed `subjectAltName` and shown by its value text, exactly like an extension the inspector does not know |
| CertInspector.ExtensionsInOrder | 16-iot-certificates/inspect_certificate.py:137-169 | the extensions print one after another in the certificate's order: the i-th extension's lines follow those of all extensions before it |
| CertInspector.FingerprintLength | 16-iot-certificates/inspect_certificate.py:125 | a displayed fingerprint of n >= 1 bytes has 3n-1 characters |
| CertInspector.FingerprintRoundTrip | 16-iot-certificates/inspect_certificate.py:124-129 | the colon-separated uppercase fingerprint reads back as the digest |
| CertInspector.ThumbprintAsWrittenRaises | 16-iot-certificates/inspect_certificate.py:204 | `hex('')` raises for every digest |
| CertInspector.ThumbprintShape | 16-iot-certificates/inspect_certificate.py:204 | the intended thumbprint has two characters per byte, all from 0-9A-F, with no separator: 40 characters for SHA-1 |
| CertInspector.ThumbprintRoundTrip | 16-iot-certificates/inspect_certificate.py:203-204 | the intended thumbprint reads back as the SHA-1 digest |
| CertInspector.Inspect | 16-iot-certificates/inspect_certificate.py:40-171 | the self-signed warning shows iff subject equals issuer; the validity is Classify's; both fingerprint lines read back as their digests; each extension's lines appear in the certificate's order |
| CertInspector.RunAsWritten | 16-iot-certificates/inspect_certificate.py:177-213 | as written, a loaded certificate never gets a thumbprint file and the process ends with status 1 |
| CertInspector.Run | 16-iot-certificates/inspect_certificate.py:177-213 | with no certificate file nothing is inspected; a load failure ends the run; otherwise thumbprint.txt holds the SHA-1 digest as 2n hexadecimal digits and the exit status is 0 |
| HouseFunction.Pop | 11-serverless-iot-platform/iot-function-app/house/__init__.py:38 | removes the key if present and tolerates its absence; all other entries are kept |
| HouseFunction.StripKeys | 11-serverless-iot-platform/iot-function-app/house/__init__.py:38-42 | exactly the five system keys go; every other key keeps its value |
| HouseFunction.StripIdempotent | 11-serverless-iot-platform/iot-function-app/house/__init__.py:38-42 | stripping twice is stripping once |
| HouseFunction.StripWithoutSystemKeys | 11-serverless-iot-platform/iot-function-app/house/__init__.py:38-42 | a document without system keys is returned unchanged |
| HouseFunction.StripAll | 11-serverless-iot-platform/iot-function-app/house/__init__.py:34-42 | the item count and order are kept, and each item is stripped |
| HouseFunction.StripAllIdempotent | 11-serverless-iot-platform/iot-function-app/house/__init__.py:37-42 | stripping a list twice is stripping it once |
| HouseFunction.StripSystemProperties | 11-serverless-iot-platform/iot-function-app/house/__init__.py:37-42 | the in-place loop leaves the array equal to StripAll of its old contents |
| HouseFunction.QueryText | 11-serverless-iot-platform/iot-function-app/house/__init__.py:24-27 | the query starts with the fixed SELECT prefix and ends with a closing quote |
| HouseFunction.QueryEmbedsId | 11-serverless-iot-platform/iot-function-app/house/__init__.py:27 | the id sits between the quotes exactly as given, unescaped |
| HouseFunction.MissingIdQueriesNone | 11-serverless-iot-platform/iot-function-app/house/__init__.py:24-27 | a missing house_id gives the query for the text "None" |
| HouseFunction.QuoteInIdReachesQuery | 11-serverless-iot-platform/iot-function-app/house/__init__.py:27 | any quote inside the id reaches the query unescaped, before its closing quote, so it ends the string literal early |
| HouseFunction.Get | 11-serverless-iot-platform/iot-function-app/house/__init__.py:87-89 | `dict.get`: the value if the key is present, else None |
| HouseFunction.HouseRecord | 11-serverless-iot-platform/iot-function-app/house/__init__.py:86-90 | the record has exactly the keys id, houseid and location, taken from the body's id, name and location; missing keys become None |
| HouseFunction.Reply | 11-serverless-iot-platform/iot-function-app/house/__init__.py:20-118 | only POST reaches the container's insert; 200 only for GET; 201 only for POST, after an insert |
| HouseFunction.Handle | 11-serverless-iot-platform/iot-function-app/house/__init__.py:20-118 | the handler, which strips the query's items in an array in place, answers as Reply does |
| HouseFunction.GetAnswers | 11-serverless-iot-platform/iot-function-app/house/__init__.py:22-69 | GET answers 500 on a query error; otherwise 200 with the CORS headers and the items in order, each exactly the stripped item: the system keys gone, every other key with its value |
| HouseFunction.OtherMethodsRejected | 11-serverless-iot-platform/iot-function-app/house/__init__.py:72-77 | any method other than GET and POST gets 400 "Please make a POST request" and stores nothing |
| HouseFunction.PostObjectAnswers | 11-serverless-iot-platform/iot-function-app/house/__init__.py:86-118 | a POST with a JSON object hands exactly its house record to the container; it answers 201 if the insert succeeds, 500 on a Cosmos error, 400 "Invalid request body" on a ValueError, and leaves any other exception uncaught |
| HouseFunction.InvalidJsonRejected | 11-serverless-iot-platform/iot-function-app/house/__init__.py:112-118 | a body that is not JSON gets 400 "Invalid request body" and nothing is stored |
| HouseFunction.CorsOnSuccessOnly | 11-serverless-iot-platform/iot-function-app/house/__init__.py:48-57 | a response carries the three CORS headers iff its status is 200 or 201 |
| Text.Split | 17-jwt-rest-api/app.py:81 | `str.split` on one character gives at least one field, and no field holds the separator |
| Text.JoinSplit | 17-jwt-rest-api/app.py:81 | joining the fields with the separator gives back the split text |
| Text.SplitAtFirst | 17-jwt-rest-api/app.py:81 | the first field is the text before the first separator, and the rest is split from just after it |
| Decimal.FromNat | 17-jwt-rest-api/app.py:268 | `str()` of a count is a non-empty numeral of decimal digits, with no leading zero unless it is 0 |
| Decimal.ToNatFromNat | 17-jwt-rest-api/app.py:268 | the numeral reads back as the number |
| Decimal.Padded | 18-timescaledb-terraform/generate_data.py:176 | `{i:03d}` is all digits, three of them unless the numeral is longer |
| Decimal.PaddedValue | 18-timescaledb-terraform/generate_data.py:176 | the padded numeral reads back as the number |
| Decimal.PaddedInjective | 18-timescaledb-terraform/generate_data.py:176 | two numbers padded to the same width give the same text iff they are equal |

## Left out

- `get_profile`, `/api/health`, the 404 handler and `generate_token`'s own signature: the profile endpoint and the health check only read. The token's claims are modelled inside `Login`, and signing is a parameter.
- Password hashing (SHA-256), HS256 signing and verification, and the expiry check against the clock: these are function parameters with no properties assumed.
- JSON request bodies that are not objects: a JWT API body is either missing, `null` or a JSON object, and a missing body gets the handler's 400 for missing fields. Flask's own answers before the handler runs are not modelled: `request.get_json()` rejects a body that does not parse with 400 Bad Request, and from Flask 2.1 on one without a JSON content type with 415. Lists, strings and numbers as bodies are not modelled either.
- Python's equality of `1`, `True` and `1.0` as dictionary keys: usernames are JSON values compared structurally.
- The two clock readings per request in the JWT API (`iat` and `exp`, and `created_at`): one `now` is given per request. Timestamps are opaque strings.
- JwtApi.Login: `timedelta(minutes=...)` overflow for an absurd `JWT_EXPIRATION_MINUTES` is not modelled. The expiration is a parameter, and the environment configuration is left out.
- Period.ParsePeriod: `int()` is modelled for ASCII digits, ASCII and common whitespace, a sign and single underscores. Non-ASCII decimal digits that Python also accepts are left out, and so is `lower()` of non-ASCII letters.
- Period.MonthsAndYears: stated for n up to 1000. ParsePeriodOfNumeral covers every count.
- Period.WindowStart: `datetime.now()` is a parameter in whole seconds; microseconds are not modelled.
- The SQL queries, psycopg and Flask plumbing of the time-series API, and its float timings.
- Reading values in the generator (`random.uniform`, rounding, the per-process `hash()`): a reading is modelled by its sensor and time only.
- `insert_batch`'s database I/O and its failure: the inserted batches are the method's result. The exception path after a failed insert is not modelled, and neither is the sample-data query after a successful run.
- The text the generator prints, and its logging. Which progress lines appear is not modelled; only the division they can raise is.
- `datetime.now()` in the generator's loop condition: the model uses a fixed end bound. The clock is in whole seconds; microseconds are not modelled.
- DataGenerator.GeneratesAtLeastAnnounced: it gives a lower bound on the count, because the real end time is later than the start of the run.
- The subject and issuer attribute listings, the serial number, the public key, the signature algorithm and the certificate's path: printing only. Certificates are records, and the library's parsing of PEM and its extensions is not modelled.
- CertInspector.Inspect: only the extension lines are modelled for the extensions; the "No extensions" message on `ExtensionNotFound` is left out.
- CertInspector.CriticalMarked: it assumes an extension displayed by its value text (any extension the inspector does not know, and the subject alternative name) does not print exactly "(CRITICAL)". That text comes from the library.
- CertInspector.UsageList: the seven conditional appends are written as a filter over the seven labels.
- CertInspector.DetailLines: the per-name listing on lines 143-144 is kept in the model behind the same test as the source, but the test never holds, because the library names the extension `subjectAltName`. What `str()` of the extension's value prints comes from the library and is a given text.
- Microsecond instants in the certificate model are integers; `datetime` arithmetic beyond subtraction is not modelled.
- The JSON text of the house GET body (`json.dumps` with `indent` and `ensure_ascii`): the body is the JSON value, not its text.
- What the Azure Functions host answers for an uncaught exception in the house handler (a non-object POST body, or an exception from `create_item` other than a Cosmos error or a ValueError): the model marks it `Unhandled`. Which inputs make `create_item` raise is up to the Cosmos SDK and is a parameter.
- The Cosmos client, connection key and logging of the house function.

## Findings

| source | as written | input that shows it | evidently intended | confidence | as-written member | corrected member |
|---|---|---|---|---|---|---|
| 18-timescaledb-terraform/generate_data.py:206 | `(count / total_readings) * 100` raises ZeroDivisionError when the announced total is 0, which happens whenever the interval is longer than the whole period (line 161 floors it to 0). The handler on line 248 catches it, so the remaining readings and the final flush are skipped and the script still exits with status 0 | `--days 1 --sensors 10001 --interval 86401`: 0 readings announced, 10001 generated, only 10000 inserted | a progress line that does not divide by a zero total, so every generated reading is inserted | not executed | DataGenerator.ProgressDividesByZero, DataGenerator.TenthBatchDividesByZero | DataGenerator.GuardedInsertsAll |
| 16-iot-certificates/inspect_certificate.py:204 | `sha1_fingerprint.hex('')` raises ValueError, because `bytes.hex` needs a separator of exactly one character; the exception is not caught, so thumbprint.txt is never written and the script exits with status 1 after printing the report | any certificate that loads, e.g. the one `generate_certificate.py` writes | `sha1_fingerprint.hex().upper()`: 40 uppercase hexadecimal digits without separators, saved to thumbprint.txt | not executed | CertInspector.ThumbprintAsWrittenRaises, CertInspector.RunAsWritten | CertInspector.ThumbprintShape, CertInspector.ThumbprintRoundTrip, CertInspector.Run |
