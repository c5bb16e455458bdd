/**
 The detector as the program runs it: a map of growable slices pruned in place, a map of alert
 times, and statistics computed by accumulator loops. Every operation is tied to module Beacon.
 */
module Detector {
  import opened Types
  import opened RealAlgebra
  import opened Beacon

  /** A Go slice: the first len elements of a backing array; what lies behind them is spare capacity. */
  datatype Slice = Slice(data: array<Time>, len: nat)

  ghost predicate Holds(s: Slice, contents: seq<Time>)
    reads s.data
  {
    s.len <= s.data.Length && s.data[..s.len] == contents
  }

  /** The two-pass mean and squared standard deviation. */
  method MeanAndVariance(values: seq<real>) returns (mean: real, variance: real)
    ensures mean == Mean(values) && variance == Variance(values)
  {
    if |values| == 0 {
      return 0.0, 0.0;
    }
    var sum := 0.0;
    for i := 0 to |values|
      invariant sum == Sum(values[..i])
    {
      sum := sum + values[i];
      assert values[..i + 1][..i] == values[..i];
    }
    assert values[..|values|] == values;
    mean := sum / |values| as real;

    var varianceSum := 0.0;
    for i := 0 to |values|
      invariant varianceSum == SquaredDeviations(values[..i], mean)
    {
      var d := values[i] - mean;
      varianceSum := varianceSum + Square(d);
      assert values[..i + 1][..i] == values[..i];
    }
    variance := varianceSum / |values| as real;
  }

  /** The positive differences between neighbours, collected in a loop. */
  method CollectGaps(timestamps: seq<Time>) returns (deltas: seq<real>)
    ensures deltas == Gaps(timestamps)
  {
    deltas := [];
    var i := 1;
    while i < |timestamps|
      invariant 1 <= i && (i <= |timestamps| || timestamps == [])
      invariant deltas == if timestamps == [] then [] else GapsAmong(timestamps, i)
    {
      var delta := timestamps[i] - timestamps[i - 1];
      if delta > 0.0 {
        deltas := deltas + [delta];
      }
      i := i + 1;
    }
  }

  /** Keeps the elements later than the cutoff by overwriting the slice that is being ranged over. */
  method CompactInPlace(s: Slice, ghost before: seq<Time>, cutoff: Time) returns (keep: nat)
    requires Holds(s, before)
    modifies s.data
    ensures Holds(Slice(s.data, keep), Pruned(before, cutoff))
  {
    var ts := s.data;
    keep := 0;
    for i := 0 to s.len
      invariant keep <= i
      invariant forall j :: i <= j < s.len ==> ts[j] == before[j]
      invariant ts[..keep] == Kept(before, i, cutoff)
    {
      var t := ts[i];
      if t > cutoff {
        ts[keep] := t;
        keep := keep + 1;
      }
    }
  }

  /** Go's append: in place while there is spare capacity, else into a fresh array of twice the size. */
  method Append(s: Slice, ghost before: seq<Time>, t: Time) returns (s': Slice)
    requires Holds(s, before)
    modifies s.data
    ensures Holds(s', before + [t])
    ensures s'.data == s.data || fresh(s'.data)
  {
    if s.len < s.data.Length {
      s.data[s.len] := t;
      s' := Slice(s.data, s.len + 1);
    } else {
      var grown := new Time[2 * s.data.Length + 1](_ => 0.0);
      forall i | 0 <= i < s.len {
        grown[i] := s.data[i];
      }
      grown[s.len] := t;
      s' := Slice(grown, s.len + 1);
    }
  }

  lemma UpdateTwice<K, V>(m: map<K, V>, k: K, a: V, b: V)
    ensures m[k := a][k := b] == m[k := b]
  {}

  lemma RecordInSteps(
      p: Params, s: State, k: BeaconKey, now: Time, pushed: seq<Time>, windows: map<BeaconKey, seq<Time>>)
    requires pushed == s.At(k).times + [now] && windows == s.history[k := Pruned(pushed, now - p.window)]
    ensures State(windows, s.alerted) == Record(p, s, k, now)
  {}

  lemma AnalyzeInSteps(p: Params, s: State, e: Event, seen: State, verdict: Verdict)
    requires e.kind == NewConnection && seen == Record(p, s, BeaconKeyOf(e.conn), e.timestamp)
    requires verdict == Conclude(p, seen.At(BeaconKeyOf(e.conn)), e.timestamp)
    ensures verdict == Quiet ==> Analyze(p, s, e) == (seen, None)
    ensures verdict.Periodic? ==>
              Analyze(p, s, e) == (seen.(alerted := seen.alerted[BeaconKeyOf(e.conn) := e.timestamp]),
                                   Some(Alert(e.conn, e.timestamp, verdict.mean, verdict.variance)))
  {}

  class PeriodicDetector {
    const params: Params
    var history: map<BeaconKey, Slice>
    var alerted: map<BeaconKey, Time>

    ghost var Repr: set<object>                   // the backing arrays
    ghost var Owner: map<array<Time>, BeaconKey>  // whose they are
    ghost var Windows: map<BeaconKey, seq<Time>>  // what the slices hold

    /** Every key owns its backing array; the slices hold what Windows says. */
    ghost predicate Owned()
      reads `history, `Windows, `Owner, `Repr, Repr
    {
      this !in Repr && history.Keys == Windows.Keys && forall k :: k in history ==> OwnsItsSlice(k)
    }

    ghost predicate OwnsItsSlice(k: BeaconKey)
      requires k in history
      reads `history, `Windows, `Owner, `Repr, Repr
    {
      && history[k].data in Repr && history[k].data in Owner && Owner[history[k].data] == k
      && k in Windows && Holds(history[k], Windows[k])
    }

    ghost predicate Valid()
      reads `history, `Windows, `Owner, `Repr, Repr
    {
      params.Valid() && Owned()
    }

    ghost function Value(): State
      reads `Windows, `alerted
    {
      State(Windows, alerted)
    }

    constructor (cfg: Config)
      ensures Valid() && Value() == EMPTY && params == NewParams(cfg) && fresh(Repr)
    {
      params := NewParams(cfg);
      history := map[];
      alerted := map[];
      Repr := {};
      Owner, Windows := map[], map[];
    }

    method Reset()
      requires Valid()
      modifies this
      ensures Valid() && Value() == EMPTY && Repr == {}
    {
      history := map[];
      alerted := map[];
      Repr := {};
      Owner, Windows := map[], map[];
    }

    /** Append and prune: the key's slice moves on in place, no other key's contents change. */
    method Record(key: BeaconKey, now: Time)
      requires Valid()
      modifies this`history, this`Repr, this`Owner, this`Windows, Repr
      ensures Valid() && fresh(Repr - old(Repr)) && key in history
      ensures Value() == Beacon.Record(params, old(Value()), key, now)
    {
      ghost var before := Value();
      ghost var pushed := before.At(key).times + [now];
      Push(key, now);
      Prune(key, now);
      UpdateTwice(before.history, key, pushed, Pruned(pushed, now - params.window));
      RecordInSteps(params, before, key, now, pushed, Windows);
    }

    /** The slice of a key, nil if it has none yet. */
    method SliceOf(key: BeaconKey) returns (slice: Slice)
      requires Valid()
      ensures Holds(slice, Value().At(key).times)
      ensures slice.data in Repr || fresh(slice.data)
      ensures forall k :: k in history && k != key ==> history[k].data != slice.data
    {
      if key in history {
        slice := history[key];
      } else {
        var none := new Time[0];
        slice := Slice(none, 0);
      }
    }

    method Push(key: BeaconKey, now: Time)
      requires Valid()
      modifies this`history, this`Repr, this`Owner, this`Windows, Repr
      ensures Valid() && fresh(Repr - old(Repr))
      ensures Windows == old(Windows)[key := old(Value()).At(key).times + [now]]
    {
      var slice := SliceOf(key);
      ghost var contents := Value().At(key).times;
      var pushed := Append(slice, contents, now);
      Store(key, pushed, contents + [now]);
    }

    /** Puts a slice in a key's place; the other keys' slices are elsewhere. */
    method Store(key: BeaconKey, slice: Slice, ghost contents: seq<Time>)
      requires params.Valid() && this !in Repr && history.Keys == Windows.Keys && Holds(slice, contents)
      requires forall k :: k in history && k != key ==> OwnsItsSlice(k) && history[k].data != slice.data
      modifies this`history, this`Repr, this`Owner, this`Windows
      ensures Valid() && Repr == old(Repr) + {slice.data}
      ensures Windows == old(Windows)[key := contents] && history == old(history)[key := slice]
    {
      history := history[key := slice];
      Repr, Owner := Repr + {slice.data}, Owner[slice.data := key];
      Windows := Windows[key := contents];
      assert OwnsItsSlice(key);
      assert forall k :: k in history && k != key ==> OwnsItsSlice(k);
    }

    method Prune(key: BeaconKey, reference: Time)
      requires Valid() && key in history
      modifies this`history, this`Repr, this`Owner, this`Windows, Repr
      ensures Valid() && Repr == old(Repr) && key in history
      ensures Windows == old(Windows)[key := Pruned(old(Windows)[key], reference - params.window)]
    {
      ghost var kept := Pruned(Windows[key], reference - params.window);
      var slice := history[key];
      assert OwnsItsSlice(key);
      var keep := CompactInPlace(slice, Windows[key], reference - params.window);
      Store(key, Slice(slice.data, keep), kept);
    }

    /** The tests on a key whose window is up to date: samples, cooldown, gaps, mean, CV. */
    method Decide(key: BeaconKey, now: Time) returns (verdict: Verdict)
      requires Valid() && key in history
      ensures verdict == Conclude(params, Value().At(key), now)
    {
      if history[key].len < params.minSamples {
        return Quiet;
      }
      if key in alerted && now - alerted[key] < params.cooldown {
        return Quiet;
      }
      var times := history[key].data[..history[key].len];
      assert params.judge(times) == Judge(params.maxCV, times);
      var deltas := CollectGaps(times);
      if |deltas| < 2 {
        return Quiet;
      }
      var mean, variance := MeanAndVariance(deltas);
      if mean <= 0.0 {
        return Quiet;
      }
      if !CvAtMost(mean, variance, params.maxCV) {
        return Quiet;
      }
      return Periodic(mean, variance);
    }

    /** One event: the state and the alert are those of Beacon.Analyze. */
    method Analyze(evt: Event) returns (alert: Option<Alert>)
      requires Valid()
      modifies this, Repr
      ensures Valid() && fresh(Repr - old(Repr))
      ensures Value() == Beacon.Analyze(params, old(Value()), evt).0
      ensures alert == Beacon.Analyze(params, old(Value()), evt).1
    {
      alert := None;
      if evt.kind == NewConnection {
        var key, now := BeaconKeyOf(evt.conn), evt.timestamp;
        ghost var before := Value();
        Record(key, now);
        var verdict := Decide(key, now);
        AnalyzeInSteps(params, before, evt, Value(), verdict);
        if verdict.Periodic? {
          alerted := alerted[key := now];
          alert := Some(Alert(evt.conn, now, verdict.mean, verdict.variance));
        }
      }
    }
  }
}
