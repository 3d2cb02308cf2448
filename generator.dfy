/**
  The synthetic-data loader of the time-series stack
  (18-timescaledb-terraform/generate_data.py): one walk over the timestamps
  per sensor, readings buffered and written in batches of `batch_size`.

  Times are whole seconds. The moving clock that ends each walk is a fixed
  end bound; the database is the list of batches handed to `insert_batch`,
  in the order they were inserted.
*/
module DataGenerator {
  import opened Wrappers
  import Decimal

  const SecondsPerDay := 86400

  /** A reading as far as its identity goes: which sensor, at what time. */
  datatype Reading = Reading(time: int, sensorId: string)

  // ---------------------------------------------------------------------
  // Sensor ids (line 176)

  function SensorId(i: nat): string {
    "sensor_" + Decimal.Padded(i, 3)
  }

  /** Every id is `sensor_` followed by at least three digits. */
  lemma SensorIdShape(i: nat)
    ensures |SensorId(i)| >= 10 && SensorId(i)[..7] == "sensor_" && Decimal.AllDigits(SensorId(i)[7..])
  {
    assert SensorId(i)[7..] == Decimal.Padded(i, 3);
  }

  /** `[f"sensor_{i:03d}" for i in range(1, n + 1)]`. */
  function SensorIds(n: int): (ids: seq<string>)
    ensures |ids| == if n < 0 then 0 else n
    ensures forall i | 0 <= i < |ids| :: ids[i] == SensorId(i + 1)
  {
    seq(if n < 0 then 0 else n, i requires 0 <= i => SensorId(i + 1))
  }

  lemma SensorIdInjective(i: nat, j: nat)
    ensures SensorId(i) == SensorId(j) <==> i == j
  {
    if SensorId(i) == SensorId(j) {
      assert SensorId(i)[7..] == Decimal.Padded(i, 3);
      assert SensorId(j)[7..] == Decimal.Padded(j, 3);
      Decimal.PaddedInjective(i, j, 3);
    }
  }

  /** No two sensors share an id. */
  lemma SensorIdsDistinct(n: int)
    ensures forall i, j | 0 <= i < j < |SensorIds(n)| :: SensorIds(n)[i] != SensorIds(n)[j]
  {
    forall i, j | 0 <= i < j < |SensorIds(n)|
      ensures SensorIds(n)[i] != SensorIds(n)[j]
    {
      SensorIdInjective(i + 1, j + 1);
    }
  }

  /** The first ids are the three-digit ones the loader's users see. */
  lemma FirstSensorIds()
    ensures SensorIds(2) == ["sensor_001", "sensor_002"]
  {
    assert Decimal.FromNat(1) == "1" && Decimal.FromNat(2) == "2";
    assert Decimal.Zeros(2) == "00";
    assert Decimal.Padded(1, 3) == "001" && Decimal.Padded(2, 3) == "002";
    assert SensorId(1) == "sensor_001" && SensorId(2) == "sensor_002";
  }

  // ---------------------------------------------------------------------
  // The announced totals (lines 161-162)

  /** `(days * 24 * 3600) // interval`; for a positive divisor Python's floor division is Dafny's. */
  function ReadingsPerSensor(days: int, interval: int): int
    requires interval >= 1
  {
    (days * SecondsPerDay) / interval
  }

  function TotalReadings(days: int, numSensors: int, interval: int): int
    requires interval >= 1
  {
    ReadingsPerSensor(days, interval) * numSensors
  }

  // ---------------------------------------------------------------------
  // One sensor's walk (lines 190-193, 211)

  /** The readings of one sensor from `t` on, one every `interval` seconds, while before `end`. */
  function Walk(id: string, t: int, end: int, interval: int): seq<Reading>
    requires interval >= 1
    decreases end - t
  {
    if t < end then [Reading(t, id)] + Walk(id, t + interval, end, interval) else []
  }

  /** The walk is start, start + interval, ..., all of them before the end bound, all for `id`. */
  lemma {:induction false} WalkTimes(id: string, t: int, end: int, interval: int)
    requires interval >= 1
    ensures forall j | 0 <= j < |Walk(id, t, end, interval)| ::
      && Walk(id, t, end, interval)[j].time == t + j * interval
      && Walk(id, t, end, interval)[j].time < end
      && Walk(id, t, end, interval)[j].sensorId == id
    decreases end - t
  {
    if t < end {
      var w, rest := Walk(id, t, end, interval), Walk(id, t + interval, end, interval);
      WalkTimes(id, t + interval, end, interval);
      forall j | 1 <= j < |w|
        ensures w[j].time == t + j * interval
      {
        assert w[j] == rest[j - 1];
        assert t + interval + (j - 1) * interval == t + j * interval;
      }
    }
  }

  /** ceil((end - t) / interval) for a walk that starts before its end, and 0 otherwise. */
  function WalkCount(t: int, end: int, interval: int): nat
    requires interval >= 1
  {
    if t < end then (end - t - 1) / interval + 1 else 0
  }

  /** A walk holds exactly ceil((end - t) / interval) readings, and none when it starts at the end. */
  lemma {:induction false} WalkLength(id: string, t: int, end: int, interval: int)
    requires interval >= 1
    ensures |Walk(id, t, end, interval)| == WalkCount(t, end, interval)
    decreases end - t
  {
    if t < end {
      WalkLength(id, t + interval, end, interval);
      if t + interval < end {
        DivStep(end - t - 1, interval);
      } else {
        SmallQuotient(end - t - 1, interval);
      }
    }
  }

  lemma DivStep(a: int, b: int)
    requires b >= 1 && a >= b
    ensures (a - b) / b + 1 == a / b
  {
    var q, r := (a - b) / b, (a - b) % b;
    assert a - b == q * b + r;
    assert a == (q + 1) * b + r;
    DivUnique(a, b, q + 1, r);
  }

  /** Quotient and remainder are determined by the division equation. */
  lemma DivUnique(a: int, b: int, q: int, r: int)
    requires b >= 1 && a == q * b + r && 0 <= r < b
    ensures a / b == q
  {
    var q', r' := a / b, a % b;
    assert (q - q') * b == r' - r;
    if q - q' >= 1 {
      ProductAtLeast(q - q', b);
    } else if q' - q >= 1 {
      assert (q' - q) * b == r - r';
      ProductAtLeast(q' - q, b);
    }
  }

  lemma ProductAtLeast(d: int, b: int)
    requires d >= 1 && b >= 1
    ensures d * b >= b
  {
  }

  lemma SmallQuotient(a: int, b: int)
    requires 0 <= a < b
    ensures a / b == 0
  {
  }

  /** If `q * b` fits under `a` then `q` is at most `a / b`. */
  lemma QuotientLowerBound(q: int, a: int, b: int)
    requires b >= 1 && q * b <= a
    ensures q <= a / b
  {
    var p, r := a / b, a % b;
    assert a == p * b + r;
    if q > p {
      assert (q - p) * b == q * b - p * b;
      ProductAtLeast(q - p, b);
    }
  }

  /** A walk over at least `days` days has at least the announced readings per sensor. */
  lemma WalkCoversAnnounced(id: string, days: int, t: int, end: int, interval: int)
    requires interval >= 1 && end - t >= days * SecondsPerDay
    ensures |Walk(id, t, end, interval)| >= ReadingsPerSensor(days, interval)
  {
    var span := days * SecondsPerDay;
    var q := span / interval;
    WalkLength(id, t, end, interval);
    if q > 0 {
      assert q * interval <= span;
      QuotientLowerBound(q - 1, end - t - 1, interval);
    }
  }

  // ---------------------------------------------------------------------
  // All readings, sensor after sensor

  /** Every sensor in `ids`, in order, walks from the same `start`. */
  function Readings(ids: seq<string>, start: int, end: int, interval: int): seq<Reading>
    requires interval >= 1
  {
    if ids == [] then []
    else Readings(ids[..|ids| - 1], start, end, interval) + Walk(ids[|ids| - 1], start, end, interval)
  }

  /** Each sensor restarts at the start time, so each contributes the same number of readings. */
  lemma {:induction false} ReadingsLength(ids: seq<string>, start: int, end: int, interval: int)
    requires interval >= 1
    ensures |Readings(ids, start, end, interval)| == |ids| * WalkCount(start, end, interval)
  {
    if ids != [] {
      var init := ids[..|ids| - 1];
      ReadingsLength(init, start, end, interval);
      WalkLength(ids[|ids| - 1], start, end, interval);
      var w := WalkCount(start, end, interval);
      assert |Readings(ids, start, end, interval)| == |init| * w + w;
      assert |init| * w + w == (|init| + 1) * w;
    }
  }

  // ---------------------------------------------------------------------
  // Batches (lines 199-202, 214-215)

  /** Every reading is inserted in a batch of its own when `batch_size <= 0`. */
  function FlushSize(batchSize: int): (k: nat)
    ensures k >= 1
    ensures batchSize >= 1 ==> k == batchSize
    ensures batchSize < 1 ==> k == 1
  {
    if batchSize >= 1 then batchSize else 1
  }

  function Flatten<T>(batches: seq<seq<T>>): seq<T> {
    if batches == [] then [] else batches[0] + Flatten(batches[1..])
  }

  /** Consecutive pieces of `k` elements, the last one holding what is left. */
  function Chunks<T>(s: seq<T>, k: nat): (batches: seq<seq<T>>)
    requires k >= 1
    decreases |s|
  {
    if s == [] then []
    else if |s| <= k then [s]
    else [s[..k]] + Chunks(s[k..], k)
  }

  /** The shape `insert_batch` sees: full batches, then possibly a shorter one, never an empty one. */
  predicate Batched<T>(batches: seq<seq<T>>, k: nat) {
    && (forall i | 0 <= i < |batches| - 1 :: |batches[i]| == k)
    && (forall i | 0 <= i < |batches| :: 1 <= |batches[i]| <= k)
  }

  lemma {:induction false} FlattenAppend<T>(batches: seq<seq<T>>, b: seq<T>)
    ensures Flatten(batches + [b]) == Flatten(batches) + b
    decreases |batches|
  {
    if batches != [] {
      assert (batches + [b])[1..] == batches[1..] + [b];
      FlattenAppend(batches[1..], b);
    }
  }

  /** Cutting into chunks loses and duplicates nothing. */
  lemma {:induction false} FlattenChunks<T>(s: seq<T>, k: nat)
    requires k >= 1
    ensures Flatten(Chunks(s, k)) == s
    ensures Batched(Chunks(s, k), k)
    decreases |s|
  {
    if |s| > k {
      FlattenChunks(s[k..], k);
      assert Chunks(s, k)[1..] == Chunks(s[k..], k);
      assert s[..k] + s[k..] == s;
    }
  }

  /** With a batch size of 1 (or `batch_size <= 0`) each reading is a batch of its own. */
  lemma {:induction false} SingletonChunks<T>(s: seq<T>)
    ensures |Chunks(s, 1)| == |s|
    ensures forall i | 0 <= i < |s| :: Chunks(s, 1)[i] == [s[i]]
    decreases |s|
  {
    if |s| > 1 {
      SingletonChunks(s[1..]);
      assert Chunks(s, 1) == [s[..1]] + Chunks(s[1..], 1);
    }
  }

  /** Chunks are the only batching of `s` into full batches and one shorter last batch. */
  lemma {:induction false} BatchedIsChunks<T>(batches: seq<seq<T>>, s: seq<T>, k: nat)
    requires k >= 1 && Batched(batches, k) && Flatten(batches) == s
    ensures batches == Chunks(s, k)
    decreases |batches|
  {
    if |batches| == 1 {
      assert batches[1..] == [] && batches == [batches[0]];
      assert Flatten(batches) == batches[0] + Flatten(batches[1..]);
      assert Flatten(batches[1..]) == [];
      assert s == batches[0] && 1 <= |s| <= k;
    } else if |batches| > 1 {
      var rest := batches[1..];
      assert Batched(rest, k) by {
        assert forall i | 0 <= i < |rest| :: rest[i] == batches[i + 1];
      }
      assert s == batches[0] + Flatten(rest);
      assert |batches[0]| == k;
      assert s[..k] == batches[0] && s[k..] == Flatten(rest);
      BatchedIsChunks(rest, s[k..], k);
      FlattenChunks(rest[0], k);
      assert |s| > k by {
        assert |Flatten(rest)| >= |rest[0]| by {
          assert Flatten(rest) == rest[0] + Flatten(rest[1..]);
        }
      }
    }
  }

  /** One step of a walk: the reading at `t`, then the walk from the next instant. */
  lemma WalkAdvance(prefix: seq<Reading>, id: string, t: int, end: int, interval: int)
    requires interval >= 1 && t < end
    ensures (prefix + [Reading(t, id)]) + Walk(id, t + interval, end, interval) == prefix + Walk(id, t, end, interval)
  {
    assert Walk(id, t, end, interval) == [Reading(t, id)] + Walk(id, t + interval, end, interval);
  }

  lemma AppendOne<T>(a: seq<T>, b: seq<T>, x: T)
    ensures a + (b + [x]) == (a + b) + [x]
  {
  }

  /** The final flush leaves full batches and at most one shorter, non-empty last batch. */
  lemma FinalFlush<T>(batches: seq<seq<T>>, buffer: seq<T>, k: nat)
    requires forall j | 0 <= j < |batches| :: |batches[j]| == k
    requires 1 <= k && |buffer| < k
    ensures var all := if buffer != [] then batches + [buffer] else batches;
      Batched(all, k) && Flatten(all) == Flatten(batches) + buffer
  {
    if buffer != [] {
      FlattenAppend(batches, buffer);
    } else {
      assert Flatten(batches) + buffer == Flatten(batches);
    }
  }

  // ---------------------------------------------------------------------
  // Where the loop stops early (lines 204-211, 248-251)

  /** `datetime.max`, 9999-12-31 23:59:59, in whole seconds since 0001-01-01 00:00:00. */
  const MaxInstant := 3652059 * SecondsPerDay - 1
  /** `timedelta`'s largest day count. */
  const MaxDeltaDays := 999999999
  /** Progress is printed once `count - last_print_count` reaches this many readings. */
  const ProgressEvery := 10000

  /**
    How the progress line computes its percentage: as written,
    `(count / total_readings) * 100`, which raises ZeroDivisionError when the
    announced total is 0; or guarded against a zero total, as intended.
  */
  datatype Progress = DividesAsWritten | Guarded

  /** The two exceptions the loop can raise; the handler on line 248 catches both. */
  datatype Stop = DivisionByZero | DateOverflow

  /** What decides whether the loop goes on: the progress line, the announced total, the batch size, the interval. */
  datatype Settings = Settings(progress: Progress, total: int, batchSize: int, interval: int)

  /**
    Whether the loop raises right after emitting its `c`-th reading `r`. The
    `c`-th reading fills a batch exactly when `c` is a multiple of the flush
    size; while the total is 0 no progress line is ever printed, so the
    first full batch at 10000 readings or more divides by zero. Otherwise the
    step to the next instant raises once it passes `datetime.max`.
  */
  function StopAfter(cfg: Settings, c: nat, r: Reading): (stop: Option<Stop>)
    ensures stop == Some(DivisionByZero) <==>
      cfg.progress == DividesAsWritten && cfg.total == 0 && c % FlushSize(cfg.batchSize) == 0 && c >= ProgressEvery
    ensures stop.None? ==> r.time + cfg.interval <= MaxInstant
  {
    if cfg.progress == DividesAsWritten && cfg.total == 0 && c % FlushSize(cfg.batchSize) == 0 && c >= ProgressEvery then
      Some(DivisionByZero)
    else if r.time + cfg.interval > MaxInstant then Some(DateOverflow)
    else None
  }

  /** None of the first `n` readings of `s` stops the loop. */
  ghost predicate NoStopBefore(cfg: Settings, s: seq<Reading>, n: nat)
    requires n <= |s|
  {
    forall i | 0 <= i < n :: StopAfter(cfg, i + 1, s[i]).None?
  }

  /** The index of the first reading from `i` on after which the loop stops. */
  function FirstStop(cfg: Settings, s: seq<Reading>, i: nat): (m: Option<nat>)
    requires i <= |s|
    ensures m.Some? ==> i <= m.value < |s| && StopAfter(cfg, m.value + 1, s[m.value]).Some?
    ensures m.Some? ==> forall j | i <= j < m.value :: StopAfter(cfg, j + 1, s[j]).None?
    ensures m.None? ==> forall j | i <= j < |s| :: StopAfter(cfg, j + 1, s[j]).None?
    decreases |s| - i
  {
    if i == |s| then None
    else if StopAfter(cfg, i + 1, s[i]).Some? then Some(i)
    else FirstStop(cfg, s, i + 1)
  }

  /** The readings of the full batches among the first `n`: `n` rounded down to a multiple of `k`. */
  function FullPart(n: nat, k: nat): (f: nat)
    requires k >= 1
    ensures f <= n && n - f == n % k
  {
    assert n == n / k * k + n % k;
    n / k * k
  }

  /** What the loops leave behind: the count, the inserted batches, and the exception that ended them. */
  datatype Loaded = Loaded(count: int, batches: seq<seq<Reading>>, stop: Option<Stop>)

  /**
    The loops' effect on the readings `all` they walk through: without an
    exception every reading is inserted, chunked by the flush size; after one,
    only the full batches flushed before it are, and the buffer is lost.
  */
  function Expected(cfg: Settings, all: seq<Reading>): (r: Loaded)
    ensures r.stop.None? ==> r.batches == Chunks(all, FlushSize(cfg.batchSize)) && r.count == |all|
    ensures r.stop.Some? ==> 1 <= r.count <= |all| && NoStopBefore(cfg, all, r.count - 1)
    ensures r.stop.Some? ==> r.stop == StopAfter(cfg, r.count, all[r.count - 1])
  {
    var k := FlushSize(cfg.batchSize);
    match FirstStop(cfg, all, 0)
    case None => Loaded(|all|, Chunks(all, k), None)
    case Some(m) => Loaded(m + 1, Chunks(all[..FullPart(m + 1, k)], k), StopAfter(cfg, m + 1, all[m]))
  }

  /** When every reading passes, nothing stops the loop. */
  lemma ExpectedWithoutStop(cfg: Settings, all: seq<Reading>)
    requires NoStopBefore(cfg, all, |all|)
    ensures Expected(cfg, all) == Loaded(|all|, Chunks(all, FlushSize(cfg.batchSize)), None)
  {
  }

  /** The first reading that stops the loop fixes what it leaves behind. */
  lemma ExpectedAtStop(cfg: Settings, all: seq<Reading>, count: nat)
    requires 1 <= count <= |all| && NoStopBefore(cfg, all, count - 1) && StopAfter(cfg, count, all[count - 1]).Some?
    ensures Expected(cfg, all) == Loaded(count, Chunks(all[..FullPart(count, FlushSize(cfg.batchSize))], FlushSize(cfg.batchSize)),
                                         StopAfter(cfg, count, all[count - 1]))
  {
  }

  /** Whatever happens, the batches inserted are, concatenated, the readings up to some point, in order. */
  lemma InsertedArePrefix(cfg: Settings, all: seq<Reading>)
    ensures Flatten(Expected(cfg, all).batches) <= all
    ensures Batched(Expected(cfg, all).batches, FlushSize(cfg.batchSize))
  {
    var k := FlushSize(cfg.batchSize);
    match FirstStop(cfg, all, 0)
    case None =>
      FlattenChunks(all, k);
    case Some(m) =>
      FlattenChunks(all[..FullPart(m + 1, k)], k);
  }

  // ---------------------------------------------------------------------
  // Arithmetic of the flush counter

  /** The remainder is determined by the division equation. */
  lemma ModUnique(a: int, b: int, q: int, r: int)
    requires b >= 1 && a == q * b + r && 0 <= r < b
    ensures a % b == r
  {
    DivUnique(a, b, q, r);
    assert a == (a / b) * b + a % b;
  }

  /** One more reading moves the count's remainder one step round. */
  lemma ModNext(c: int, k: int)
    requires k >= 1
    ensures (c + 1) % k == if c % k + 1 == k then 0 else c % k + 1
  {
    var q, r := c / k, c % k;
    assert c == q * k + r;
    if r + 1 == k {
      assert c + 1 == (q + 1) * k + 0;
      ModUnique(c + 1, k, q + 1, 0);
    } else {
      assert c + 1 == q * k + (r + 1);
      ModUnique(c + 1, k, q, r + 1);
    }
  }

  /** A reading that does not stop the loop extends the readings that do not. */
  lemma NoStopExtend(cfg: Settings, s: seq<Reading>, r: Reading)
    requires NoStopBefore(cfg, s, |s|) && StopAfter(cfg, |s| + 1, r).None?
    ensures NoStopBefore(cfg, s + [r], |s| + 1)
  {
    var s' := s + [r];
    forall i | 0 <= i < |s| + 1 ensures StopAfter(cfg, i + 1, s'[i]).None? {
      if i < |s| {
        assert s'[i] == s[i];
      }
    }
  }

  /** Appending a reading keeps what held for the ones before it. */
  lemma NoStopKept(cfg: Settings, s: seq<Reading>, r: Reading)
    requires NoStopBefore(cfg, s, |s|)
    ensures NoStopBefore(cfg, s + [r], |s|)
  {
    var s' := s + [r];
    forall i | 0 <= i < |s| ensures StopAfter(cfg, i + 1, s'[i]).None? {
      assert s'[i] == s[i];
    }
  }

  /** The full batches flushed so far are the chunks of what they hold. */
  lemma FullBatchesAreChunks<T>(batches: seq<seq<T>>, buffer: seq<T>, k: nat, count: nat)
    requires k >= 1 && forall j | 0 <= j < |batches| :: |batches[j]| == k
    requires count == |Flatten(batches) + buffer| && |buffer| == count % k
    ensures var emitted := Flatten(batches) + buffer;
      batches == Chunks(emitted[..FullPart(count, k)], k)
  {
    var emitted := Flatten(batches) + buffer;
    var n := FullPart(count, k);
    assert emitted[..n] == Flatten(batches);
    BatchedIsChunks(batches, Flatten(batches), k);
  }

  // ---------------------------------------------------------------------
  // The loops (lines 185-215)

  /**
    The inner loop of `generate_data` for one sensor: a reading every
    `interval` seconds from `start` while before `end`, each appended to the
    buffer, the buffer inserted and emptied once it holds `batch_size`
    readings, the progress line after an insert, and the step to the next
    instant. The readings already emitted stay in front. It returns the
    exception that ends it, if one does.
  */
  method WalkSensor(cfg: Settings, id: string, start: int, end: int,
                    batches0: seq<seq<Reading>>, buffer0: seq<Reading>, count0: int, lastPrint0: int)
    returns (batches: seq<seq<Reading>>, buffer: seq<Reading>, count: int, lastPrint: int, stop: Option<Stop>)
    requires cfg.interval >= 1
    requires forall j | 0 <= j < |batches0| :: |batches0[j]| == FlushSize(cfg.batchSize)
    requires count0 == |Flatten(batches0) + buffer0| && |buffer0| == count0 % FlushSize(cfg.batchSize)
    requires NoStopBefore(cfg, Flatten(batches0) + buffer0, count0)
    requires cfg.progress == DividesAsWritten && cfg.total == 0 ==> lastPrint0 == 0
    ensures var prior, emitted := Flatten(batches0) + buffer0, Flatten(batches) + buffer;
      var full := prior + Walk(id, start, end, cfg.interval);
      && count == |emitted| && emitted <= full
      && (stop.None? ==> emitted == full && NoStopBefore(cfg, emitted, count))
      && (stop.Some? ==> |prior| < count && NoStopBefore(cfg, emitted, count - 1)
                         && stop == StopAfter(cfg, count, emitted[count - 1]))
    ensures forall j | 0 <= j < |batches| :: |batches[j]| == FlushSize(cfg.batchSize)
    ensures |buffer| == count % FlushSize(cfg.batchSize)
    ensures cfg.progress == DividesAsWritten && cfg.total == 0 ==> lastPrint == 0
  {
    var k := FlushSize(cfg.batchSize);
    var interval := cfg.interval;
    batches, buffer, count, lastPrint, stop := batches0, buffer0, count0, lastPrint0, None;
    ghost var prior := Flatten(batches0) + buffer0;
    ghost var full := prior + Walk(id, start, end, interval);
    ghost var emitted := prior;
    ghost var flushed := Flatten(batches0);
    var t := start;
    while t < end
      invariant emitted + Walk(id, t, end, interval) == full
      invariant flushed == Flatten(batches) && flushed + buffer == emitted
      invariant forall j | 0 <= j < |batches| :: |batches[j]| == k
      invariant count == |emitted| && |buffer| == count % k && |prior| <= count
      invariant NoStopBefore(cfg, emitted, count)
      invariant cfg.progress == DividesAsWritten && cfg.total == 0 ==> lastPrint == 0
      decreases end - t
    {
      var reading := Reading(t, id);
      WalkAdvance(emitted, id, t, end, interval);
      AppendOne(flushed, buffer, reading);
      ModNext(count, k);
      ghost var before := emitted;
      buffer := buffer + [reading];
      emitted := emitted + [reading];
      count := count + 1;
      if |buffer| >= cfg.batchSize {
        FlattenAppend(batches, buffer);
        batches := batches + [buffer];
        flushed := flushed + buffer;
        buffer := [];
        if count - lastPrint >= ProgressEvery {
          if cfg.progress == DividesAsWritten && cfg.total == 0 {
            NoStopKept(cfg, before, reading);
            stop := Some(DivisionByZero);
            return;
          }
          lastPrint := count;
        }
      }
      if t + interval > MaxInstant {
        NoStopKept(cfg, before, reading);
        stop := Some(DateOverflow);
        return;
      }
      NoStopExtend(cfg, before, reading);
      t := t + interval;
    }
  }

  /** A sensor's readings come after those of the sensors before it. */
  lemma {:induction false} ReadingsPrefix(ids: seq<string>, i: nat, start: int, end: int, interval: int)
    requires interval >= 1 && i <= |ids|
    ensures Readings(ids[..i], start, end, interval) <= Readings(ids, start, end, interval)
    decreases |ids|
  {
    if i < |ids| {
      var init := ids[..|ids| - 1];
      assert init[..i] == ids[..i];
      ReadingsPrefix(init, i, start, end, interval);
    } else {
      assert ids[..i] == ids;
    }
  }

  /** What the loops leave when a reading of theirs raises: the full batches flushed before it. */
  lemma StoppedEarly(cfg: Settings, all: seq<Reading>, batches: seq<seq<Reading>>, buffer: seq<Reading>,
                     emitted: seq<Reading>, count: int, stop: Option<Stop>)
    requires forall j | 0 <= j < |batches| :: |batches[j]| == FlushSize(cfg.batchSize)
    requires emitted == Flatten(batches) + buffer
    requires count == |emitted| && |buffer| == count % FlushSize(cfg.batchSize)
    requires emitted <= all && count >= 1
    requires NoStopBefore(cfg, emitted, count - 1)
    requires stop == StopAfter(cfg, count, emitted[count - 1]) && stop.Some?
    ensures Loaded(count, batches, stop) == Expected(cfg, all)
  {
    var k := FlushSize(cfg.batchSize);
    NoStopOnPrefix(cfg, emitted, all, count - 1);
    PrefixTake(emitted, all, count);
    ExpectedAtStop(cfg, all, count);
    FullBatchesAreChunks(batches, buffer, k, count);
    PrefixTake(emitted, all, FullPart(count, k));
  }

  /** A prefix agrees with the whole on its first `n` elements. */
  lemma PrefixTake<T>(a: seq<T>, b: seq<T>, n: nat)
    requires a <= b && n <= |a|
    ensures a[..n] == b[..n] && (n > 0 ==> a[n - 1] == b[n - 1])
  {
  }

  /** Whether the first `n` readings stop the loop depends on them alone. */
  lemma NoStopOnPrefix(cfg: Settings, a: seq<Reading>, b: seq<Reading>, n: nat)
    requires a <= b && n <= |a| && NoStopBefore(cfg, a, n)
    ensures NoStopBefore(cfg, b, n)
  {
    forall j | 0 <= j < n ensures StopAfter(cfg, j + 1, b[j]).None? {
      assert b[j] == a[j];
    }
  }

  /**
    `generate_data`'s loops: the sensors in order, each walked by
    `WalkSensor` into the same buffer, and what is left in the buffer
    inserted at the end if anything is. An exception ends both loops and
    skips the final insert.
  */
  method GenerateReadings(cfg: Settings, ids: seq<string>, start: int, end: int)
    returns (count: int, batches: seq<seq<Reading>>, stop: Option<Stop>)
    requires cfg.interval >= 1
    ensures Loaded(count, batches, stop) == Expected(cfg, Readings(ids, start, end, cfg.interval))
  {
    var k := FlushSize(cfg.batchSize);
    var interval := cfg.interval;
    ghost var all := Readings(ids, start, end, interval);
    var buffer: seq<Reading> := [];
    var lastPrint := 0;
    batches, count, stop := [], 0, None;
    var i := 0;
    while i < |ids|
      invariant 0 <= i <= |ids|
      invariant Flatten(batches) + buffer == Readings(ids[..i], start, end, interval)
      invariant forall j | 0 <= j < |batches| :: |batches[j]| == k
      invariant count == |Flatten(batches) + buffer| && |buffer| == count % k
      invariant NoStopBefore(cfg, Flatten(batches) + buffer, count)
      invariant cfg.progress == DividesAsWritten && cfg.total == 0 ==> lastPrint == 0
      invariant stop.None?
    {
      assert ids[..i + 1][..i] == ids[..i];
      batches, buffer, count, lastPrint, stop :=
        WalkSensor(cfg, ids[i], start, end, batches, buffer, count, lastPrint);
      if stop.Some? {
        ReadingsPrefix(ids, i + 1, start, end, interval);
        StoppedEarly(cfg, all, batches, buffer, Flatten(batches) + buffer, count, stop);
        return;
      }
      i := i + 1;
    }
    assert ids[..|ids|] == ids;
    ExpectedWithoutStop(cfg, all);
    FinalFlush(batches, buffer, k);
    ghost var emitted := Flatten(batches) + buffer;
    if buffer != [] {
      batches := batches + [buffer];
    }
    BatchedIsChunks(batches, emitted, k);
  }

  // ---------------------------------------------------------------------
  // The whole run (lines 141-219, 292-311)

  const DaysError := "Error: --days must be at least 1"
  const SensorsError := "Error: --sensors must be at least 1"
  const IntervalError := "Error: --interval must be at least 1"

  /** `main`'s checks, in order; the batch size is never checked. */
  function CheckArguments(days: int, sensors: int, interval: int): (error: Option<string>)
    ensures error.None? <==> days >= 1 && sensors >= 1 && interval >= 1
    ensures days < 1 ==> error == Some(DaysError)
    ensures days >= 1 && sensors < 1 ==> error == Some(SensorsError)
    ensures days >= 1 && sensors >= 1 && interval < 1 ==> error == Some(IntervalError)
  {
    if days < 1 then Some(DaysError)
    else if sensors < 1 then Some(SensorsError)
    else if interval < 1 then Some(IntervalError)
    else None
  }

  datatype Outcome =
    | Exit(code: int, message: string)
      /** `datetime.now() - timedelta(days=days)` raised outside the try: a traceback and status 1. */
    | Crashed
    | Generated(count: int, batches: seq<seq<Reading>>)
      /** The loop raised; line 248 prints the error and the script ends with status 0. */
    | Aborted(error: Stop, batches: seq<seq<Reading>>)

  const ConnectError := "Error connecting to database"

  /** Whether `datetime.now() - timedelta(days=days)` is a datetime (in whole seconds since 0001-01-01). */
  predicate StartRepresentable(days: int, now: int) {
    days <= MaxDeltaDays && now - days * SecondsPerDay >= 0
  }

  /**
    The script from its arguments: the checks, the connection (which may
    fail), the start time `now - days`, and the loops. `now` is the clock
    at the start; `end` is the bound that replaces the clock in the loop.
  */
  function RunSpec(progress: Progress, days: int, sensors: int, interval: int, batchSize: int,
                   connected: bool, now: int, end: int): (outcome: Outcome)
    ensures CheckArguments(days, sensors, interval).Some? ==>
      outcome == Exit(1, CheckArguments(days, sensors, interval).value)
    ensures CheckArguments(days, sensors, interval).None? && !connected ==> outcome == Exit(1, ConnectError)
    ensures CheckArguments(days, sensors, interval).None? && connected && !StartRepresentable(days, now) ==>
      outcome == Crashed
    ensures outcome.Generated? || outcome.Aborted? ==>
      && CheckArguments(days, sensors, interval).None? && connected && StartRepresentable(days, now)
      && Flatten(outcome.batches) <= Readings(SensorIds(sensors), now - days * SecondsPerDay, end, interval)
  {
    if CheckArguments(days, sensors, interval).Some? then Exit(1, CheckArguments(days, sensors, interval).value)
    else if !connected then Exit(1, ConnectError)
    else if !StartRepresentable(days, now) then Crashed
    else
      var cfg := Settings(progress, TotalReadings(days, sensors, interval), batchSize, interval);
      var all := Readings(SensorIds(sensors), now - days * SecondsPerDay, end, interval);
      InsertedArePrefix(cfg, all);
      Finish(Expected(cfg, all))
  }

  /** How `generate_data` ends: the success message, or the exception line 248 catches. */
  function Finish(r: Loaded): (outcome: Outcome)
    ensures outcome.Generated? || outcome.Aborted?
    ensures outcome.batches == r.batches
    ensures outcome.Generated? <==> r.stop.None?
    ensures outcome.Generated? ==> outcome.count == r.count
    ensures outcome.Aborted? ==> r.stop == Some(outcome.error)
  {
    if r.stop.None? then Generated(r.count, r.batches) else Aborted(r.stop.value, r.batches)
  }

  method Run(progress: Progress, days: int, sensors: int, interval: int, batchSize: int,
             connected: bool, now: int, end: int)
    returns (outcome: Outcome)
    ensures outcome == RunSpec(progress, days, sensors, interval, batchSize, connected, now, end)
  {
    var error := CheckArguments(days, sensors, interval);
    if error.Some? {
      return Exit(1, error.value);
    }
    if !connected {
      return Exit(1, ConnectError);
    }
    if !StartRepresentable(days, now) {
      return Crashed;
    }
    var ids := SensorIds(sensors);
    var start := now - days * SecondsPerDay;
    var cfg := Settings(progress, TotalReadings(days, sensors, interval), batchSize, interval);
    var count, batches, stop := GenerateReadings(cfg, ids, start, end);
    outcome := Finish(Loaded(count, batches, stop));
  }

  // ---------------------------------------------------------------------
  // What the run inserts

  /** Every reading is at or after the start and before the end bound. */
  lemma {:induction false} ReadingsInWindow(ids: seq<string>, start: int, end: int, interval: int)
    requires interval >= 1
    ensures forall j | 0 <= j < |Readings(ids, start, end, interval)| ::
      start <= Readings(ids, start, end, interval)[j].time < end
  {
    if ids != [] {
      var init := ids[..|ids| - 1];
      var w := Walk(ids[|ids| - 1], start, end, interval);
      ReadingsInWindow(init, start, end, interval);
      WalkTimes(ids[|ids| - 1], start, end, interval);
      var all := Readings(ids, start, end, interval);
      forall j | 0 <= j < |all| ensures start <= all[j].time < end {
        if j >= |Readings(init, start, end, interval)| {
          var d := j - |Readings(init, start, end, interval)|;
          assert all[j] == w[d];
          assert d * interval >= 0;
        }
      }
    }
  }

  /**
    With the progress line guarded, a run whose readings stay a step short of
    `datetime.max` inserts every reading, chunked by the batch size.
  */
  lemma GuardedInsertsAll(days: int, sensors: int, interval: int, batchSize: int, now: int, end: int)
    requires CheckArguments(days, sensors, interval).None? && StartRepresentable(days, now)
    requires end + interval <= MaxInstant + 1
    ensures var all := Readings(SensorIds(sensors), now - days * SecondsPerDay, end, interval);
      RunSpec(Guarded, days, sensors, interval, batchSize, true, now, end)
        == Generated(|all|, Chunks(all, FlushSize(batchSize)))
  {
    var all := Readings(SensorIds(sensors), now - days * SecondsPerDay, end, interval);
    var cfg := Settings(Guarded, TotalReadings(days, sensors, interval), batchSize, interval);
    ReadingsInWindow(SensorIds(sensors), now - days * SecondsPerDay, end, interval);
    ExpectedWithoutStop(cfg, all);
  }

  /** A walk that ends before a second step holds only its start. */
  lemma {:induction false} OneStepReadings(ids: seq<string>, start: int, end: int, interval: int)
    requires interval >= 1 && start < end <= start + interval
    ensures |Readings(ids, start, end, interval)| == |ids|
    ensures forall j | 0 <= j < |ids| :: Readings(ids, start, end, interval)[j] == Reading(start, ids[j])
  {
    if ids != [] {
      var init := ids[..|ids| - 1];
      OneStepReadings(init, start, end, interval);
      assert Walk(ids[|ids| - 1], start, end, interval) == [Reading(start, ids[|ids| - 1])];
      var all := Readings(ids, start, end, interval);
      forall j | 0 <= j < |ids| ensures all[j] == Reading(start, ids[j]) {
        if j < |init| {
          assert all[j] == Readings(init, start, end, interval)[j];
          assert init[j] == ids[j];
        }
      }
    }
  }

  /**
    As written the progress line divides by zero once the interval exceeds
    a day: with `--days 1`, more than 10000 sensors and the default batch
    size of 1000 (`--days 1 --sensors 10001 --interval 86401`, say) the
    script announces 0 readings, generates one per sensor, and inserts only
    the first 10000 before the division at the tenth full batch ends the
    run, which still exits with status 0.
  */
  lemma ProgressDividesByZero(sensors: int, interval: int, start: int, end: int)
    requires sensors > ProgressEvery && interval > SecondsPerDay
    requires 0 <= start && start + SecondsPerDay <= end <= start + interval <= MaxInstant
    ensures TotalReadings(1, sensors, interval) == 0
    ensures |Readings(SensorIds(sensors), start, end, interval)| == sensors
    ensures RunSpec(DividesAsWritten, 1, sensors, interval, 1000, true, start + SecondsPerDay, end)
      == Aborted(DivisionByZero, Chunks(Readings(SensorIds(sensors), start, end, interval)[..ProgressEvery], 1000))
  {
    NothingAnnounced(sensors, interval);
    TenthBatchDividesByZero(SensorIds(sensors), interval, start, end);
    RunLoads(DividesAsWritten, 1, sensors, interval, 1000, start + SecondsPerDay, end, 0, start);
  }

  /** With one day and an interval beyond a day, `total_readings` is 0 whatever the sensor count. */
  lemma NothingAnnounced(sensors: int, interval: int)
    requires interval > SecondsPerDay
    ensures TotalReadings(1, sensors, interval) == 0
  {
    assert ReadingsPerSensor(1, interval) == 0;
  }

  /** A run that passes its checks and connects ends as its loop does. */
  lemma RunLoads(progress: Progress, days: int, sensors: int, interval: int, batchSize: int, now: int, end: int,
                 total: int, start: int)
    requires CheckArguments(days, sensors, interval).None? && StartRepresentable(days, now)
    requires total == TotalReadings(days, sensors, interval) && start == now - days * SecondsPerDay
    ensures RunSpec(progress, days, sensors, interval, batchSize, true, now, end)
      == Finish(Expected(Settings(progress, total, batchSize, interval), Readings(SensorIds(sensors), start, end, interval)))
  {
  }

  /** The loop of that run: ten full batches, then the division. */
  lemma TenthBatchDividesByZero(ids: seq<string>, interval: int, start: int, end: int)
    requires |ids| > ProgressEvery && interval >= 1
    requires start < end <= start + interval && start + interval <= MaxInstant
    ensures |Readings(ids, start, end, interval)| == |ids|
    ensures Finish(Expected(Settings(DividesAsWritten, 0, 1000, interval), Readings(ids, start, end, interval)))
      == Aborted(DivisionByZero, Chunks(Readings(ids, start, end, interval)[..ProgressEvery], 1000))
  {
    var all := Readings(ids, start, end, interval);
    OneStepReadings(ids, start, end, interval);
    var cfg := Settings(DividesAsWritten, 0, 1000, interval);
    SameTimeNoStop(cfg, all, start, ProgressEvery - 1);
    assert all[ProgressEvery - 1].time == start;
    assert StopAfter(cfg, ProgressEvery, all[ProgressEvery - 1]) == Some(DivisionByZero);
    ExpectedAtStop(cfg, all, ProgressEvery);
    assert FullPart(ProgressEvery, 1000) == ProgressEvery;
  }

  /** Before the progress line is due, readings that all stay a step short of `datetime.max` do not stop the loop. */
  lemma SameTimeNoStop(cfg: Settings, all: seq<Reading>, t: int, m: nat)
    requires m < ProgressEvery && m <= |all| && t + cfg.interval <= MaxInstant
    requires forall j | 0 <= j < m :: all[j].time == t
    ensures NoStopBefore(cfg, all, m)
  {
    forall j | 0 <= j < m ensures StopAfter(cfg, j + 1, all[j]).None? {
      assert all[j].time == t;
    }
  }

  /**
    Once the script passes its checks it generates at least the total it
    announces: each of the `sensors` walks covers the `days` days from
    the start to the clock, and the clock does not go back.
  */
  lemma GeneratesAtLeastAnnounced(days: int, sensors: int, interval: int, now: int, end: int)
    requires CheckArguments(days, sensors, interval).None? && end >= now
    ensures |Readings(SensorIds(sensors), now - days * SecondsPerDay, end, interval)|
      >= TotalReadings(days, sensors, interval)
  {
    var start := now - days * SecondsPerDay;
    var ids := SensorIds(sensors);
    ReadingsLength(ids, start, end, interval);
    WalkCoversAnnounced("", days, start, end, interval);
    WalkLength("", start, end, interval);
    var w := WalkCount(start, end, interval);
    var r := ReadingsPerSensor(days, interval);
    assert sensors * w >= sensors * r by {
      ScaleMonotone(sensors, r, w);
    }
  }

  lemma ScaleMonotone(n: nat, a: int, b: int)
    requires a <= b
    ensures n * a <= n * b
  {
  }
}
