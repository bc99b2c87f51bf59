/** The pure half of monitor.py: decoding one `nvidia-smi` CSV line into a
    reading (with the fallback reading on any failure), and the functions that
    specify the history window, the 3-second slope and the eta ratio. */
module Telemetry {

  datatype Option<T> = None | Some(value: T)

  /** One parsed query: temperature, utilisation, power draw, power limit, fan speed,
      in the order of the query fields. */
  datatype Reading = Reading(temp: real, gpuUtil: real, powerDraw: real, powerLimit: real, fanSpeed: real)

  /** What every failed or malformed query yields. */
  const Fallback: Reading := Reading(0.0, 0.0, 0.0, 150.0, 0.0)

  /** The number of comma-separated fields one query asks for. */
  const FieldCount: nat := 5

  /** Characters Python's `str.strip()` removes (the ASCII ones). */
  predicate IsSpace(c: char)
  {
    c == ' ' || c == '\t' || c == '\n' || c == '\r' || c == '\U{0b}' || c == '\U{0c}'
    || c == '\U{1c}' || c == '\U{1d}' || c == '\U{1e}' || c == '\U{1f}'
  }

  /** Python's `s.lstrip()`. */
  function StripLeft(s: string): string
  {
    if |s| > 0 && IsSpace(s[0]) then StripLeft(s[1..]) else s
  }

  /** Python's `s.rstrip()`. */
  function StripRight(s: string): string
  {
    if |s| > 0 && IsSpace(s[|s| - 1]) then StripRight(s[..|s| - 1]) else s
  }

  /** Python's `s.strip()`: `s` without its leading and trailing whitespace. */
  function Strip(s: string): string
  {
    StripRight(StripLeft(s))
  }

  /** Python's `s.split(sep)` with an explicit separator: always at least one part. */
  function Split(s: string, sep: char): (parts: seq<string>)
    ensures |parts| >= 1
  {
    if |s| == 0 then [""]
    else
      var rest := Split(s[1..], sep);
      if s[0] == sep then [""] + rest else [[s[0]] + rest[0]] + rest[1..]
  }

  /** The inverse of `Split`: the parts glued back with the separator between them. */
  function Join(parts: seq<string>, sep: char): string
  {
    if |parts| == 0 then "" else if |parts| == 1 then parts[0]
    else parts[0] + [sep] + Join(parts[1..], sep)
  }

  /** How many times `c` occurs in `s`. */
  function Occurrences(s: string, c: char): nat
  {
    if |s| == 0 then 0 else (if s[0] == c then 1 else 0) + Occurrences(s[1..], c)
  }

  /** `lstrip` removes a prefix of whitespace and stops at the first other character. */
  lemma {:induction false} StripLeftShape(s: string)
    ensures var r := StripLeft(s);
      |r| <= |s| && r == s[|s| - |r|..]
      && (r == [] || !IsSpace(r[0]))
      && forall i :: 0 <= i < |s| - |r| ==> IsSpace(s[i])
  {
    if |s| > 0 && IsSpace(s[0]) {
      var t := s[1..];
      StripLeftShape(t);
      var r := StripLeft(t);
      assert t[|t| - |r|..] == s[|s| - |r|..];
      forall i | 0 <= i < |s| - |r| ensures IsSpace(s[i]) {
        if i > 0 {
          assert s[i] == t[i - 1];
        }
      }
    }
  }

  /** `rstrip` removes a suffix of whitespace and stops at the last other character. */
  lemma {:induction false} StripRightShape(s: string)
    ensures var r := StripRight(s);
      |r| <= |s| && r == s[..|r|]
      && (r == [] || !IsSpace(r[|r| - 1]))
      && forall i :: |r| <= i < |s| ==> IsSpace(s[i])
  {
    if |s| > 0 && IsSpace(s[|s| - 1]) {
      var t := s[..|s| - 1];
      StripRightShape(t);
      var r := StripRight(t);
      assert t[..|r|] == s[..|r|];
      forall i | |r| <= i < |s| ensures IsSpace(s[i]) {
        if i < |t| {
          assert s[i] == t[i];
        }
      }
    }
  }

  /** `strip` never lengthens the line and leaves no whitespace at either end. */
  lemma StripShape(s: string)
    ensures var r := Strip(s);
      |r| <= |s| && (r == [] || (!IsSpace(r[0]) && !IsSpace(r[|r| - 1])))
  {
    var l := StripLeft(s);
    StripLeftShape(s);
    StripRightShape(l);
    var r := StripRight(l);
    if r != [] {
      assert r[0] == l[0];
    }
  }

  /** `strip` keeps every character that is not whitespace (commas in particular)
      as often as it was. */
  lemma StripKeeps(s: string, c: char)
    requires !IsSpace(c)
    ensures Occurrences(Strip(s), c) == Occurrences(s, c)
  {
    StripLeftKeeps(s, c);
    StripRightKeeps(StripLeft(s), c);
  }

  /** No part of a split contains the separator. */
  lemma {:induction false} SplitParts(s: string, sep: char)
    ensures forall i :: 0 <= i < |Split(s, sep)| ==> sep !in Split(s, sep)[i]
  {
    if |s| > 0 {
      SplitParts(s[1..], sep);
      var rest := Split(s[1..], sep);
      var parts := Split(s, sep);
      forall i | 0 <= i < |parts| ensures sep !in parts[i] {
        if s[0] == sep {
          if i > 0 {
            assert parts[i] == rest[i - 1];
          }
        } else if i > 0 {
          assert parts[i] == rest[i];
        } else {
          assert parts[0] == [s[0]] + rest[0];
        }
      }
    }
  }

  /** Splitting loses nothing: joining the parts gives the line back. */
  lemma {:induction false} SplitJoin(s: string, sep: char)
    ensures Join(Split(s, sep), sep) == s
  {
    if |s| > 0 {
      var rest := Split(s[1..], sep);
      SplitJoin(s[1..], sep);
      if s[0] == sep {
        assert Split(s, sep) == [""] + rest;
        assert ([""] + rest)[1..] == rest;
      } else {
        var p := [[s[0]] + rest[0]] + rest[1..];
        assert Split(s, sep) == p;
        if |rest| > 1 {
          assert p[1..] == rest[1..];
          assert Join(rest, sep) == rest[0] + [sep] + Join(rest[1..], sep);
          assert s == [s[0]] + s[1..];
        }
      }
    }
  }

  /** There is one part more than there are separators. */
  lemma {:induction false} SplitCount(s: string, sep: char)
    ensures |Split(s, sep)| == Occurrences(s, sep) + 1
  {
    if |s| > 0 {
      SplitCount(s[1..], sep);
    }
  }

  lemma {:induction false} StripLeftKeeps(s: string, c: char)
    requires !IsSpace(c)
    ensures Occurrences(StripLeft(s), c) == Occurrences(s, c)
  {
    if |s| > 0 && IsSpace(s[0]) {
      StripLeftKeeps(s[1..], c);
    }
  }

  lemma {:induction false} OccurrencesSnoc(s: string, x: char, c: char)
    ensures Occurrences(s + [x], c) == Occurrences(s, c) + (if x == c then 1 else 0)
  {
    if |s| > 0 {
      assert (s + [x])[1..] == s[1..] + [x];
      OccurrencesSnoc(s[1..], x, c);
    }
  }

  lemma {:induction false} StripRightKeeps(s: string, c: char)
    requires !IsSpace(c)
    ensures Occurrences(StripRight(s), c) == Occurrences(s, c)
  {
    if |s| > 0 && IsSpace(s[|s| - 1]) {
      var init := s[..|s| - 1];
      assert s == init + [s[|s| - 1]];
      OccurrencesSnoc(init, s[|s| - 1], c);
      StripRightKeeps(init, c);
    }
  }

  /** The field list of `_parse_nvidia_smi`: the stripped line split on commas,
      each part stripped. */
  function Fields(output: string): seq<string>
  {
    var raw := Split(Strip(output), ',');
    seq(|raw|, i requires 0 <= i < |raw| => Strip(raw[i]))
  }

  /** There is one field more than the line has commas. */
  lemma FieldsCount(output: string)
    ensures |Fields(output)| == Occurrences(output, ',') + 1
  {
    StripKeeps(output, ',');
    SplitCount(Strip(output), ',');
  }

  /** No field has whitespace at either end. */
  lemma FieldsTrimmed(output: string)
    ensures forall i :: 0 <= i < |Fields(output)| ==>
      var f := Fields(output)[i]; f == [] || (!IsSpace(f[0]) && !IsSpace(f[|f| - 1]))
  {
    var raw := Split(Strip(output), ',');
    forall i | 0 <= i < |raw|
      ensures var f := Strip(raw[i]); f == [] || (!IsSpace(f[0]) && !IsSpace(f[|f| - 1]))
    {
      StripShape(raw[i]);
    }
  }

  /** The field-count and conversion step: fewer than five fields, or any of the
      first five not a number, gives the fallback; later fields are never looked at. */
  function ParseFields(fields: seq<Option<real>>): (r: Reading)
    ensures |fields| < FieldCount ==> r == Fallback
    ensures |fields| >= FieldCount && (exists i :: 0 <= i < FieldCount && fields[i].None?) ==> r == Fallback
    ensures |fields| >= FieldCount && (forall i :: 0 <= i < FieldCount ==> fields[i].Some?) ==>
              r == Reading(fields[0].value, fields[1].value, fields[2].value, fields[3].value, fields[4].value)
  {
    if |fields| < FieldCount then Fallback
    else match (fields[0], fields[1], fields[2], fields[3], fields[4])
      case (Some(t), Some(u), Some(d), Some(l), Some(f)) => Reading(t, u, d, l, f)
      case _ => Fallback
  }

  /** Fields past the fifth do not affect the result. */
  lemma ExtraFieldsIgnored(fields: seq<Option<real>>, extra: seq<Option<real>>)
    requires |fields| >= FieldCount
    ensures ParseFields(fields + extra) == ParseFields(fields)
  {
    assert (fields + extra)[..FieldCount] == fields[..FieldCount];
  }

  /** `_parse_nvidia_smi` on the query's outcome: `None` when the command failed,
      otherwise its text; `floatOf` stands for Python's `float()` on one field. */
  function ParseNvidiaSmi(output: Option<string>, floatOf: string -> Option<real>): (r: Reading)
    ensures output.None? ==> r == Fallback
    ensures output.Some? && Occurrences(output.value, ',') < FieldCount - 1 ==> r == Fallback
  {
    match output
    case None => Fallback
    case Some(text) =>
      FieldsCount(text);
      var parts := Fields(text);
      ParseFields(seq(|parts|, i requires 0 <= i < |parts| => floatOf(parts[i])))
  }

  /** A well-formed line gives exactly its five converted fields, in order. */
  lemma ParseWellFormed(text: string, floatOf: string -> Option<real>)
    requires |Fields(text)| >= FieldCount
    requires forall i :: 0 <= i < FieldCount ==> floatOf(Fields(text)[i]).Some?
    ensures var p := Fields(text);
      ParseNvidiaSmi(Some(text), floatOf)
        == Reading(floatOf(p[0]).value, floatOf(p[1]).value, floatOf(p[2]).value,
                   floatOf(p[3]).value, floatOf(p[4]).value)
  {
  }

  /** A field among the first five that does not convert gives the fallback. */
  lemma ParseBadField(text: string, floatOf: string -> Option<real>, k: nat)
    requires k < FieldCount <= |Fields(text)|
    requires floatOf(Fields(text)[k]).None?
    ensures ParseNvidiaSmi(Some(text), floatOf) == Fallback
  {
    var p := Fields(text);
    var conv := seq(|p|, i requires 0 <= i < |p| => floatOf(p[i]));
    assert conv[k].None?;
  }

  // ---------------------------------------------------------------------------
  // History window

  /** One history entry: `(timestamp, temperature)`. */
  datatype Sample = Sample(t: real, temp: real)

  /** Entries whose timestamps never decrease. */
  ghost predicate Sorted(h: seq<Sample>)
  {
    forall i, j :: 0 <= i < j < |h| ==> h[i].t <= h[j].t
  }

  /** The eviction loop of `update_info`: drop front entries while the oldest is
      more than `window` seconds before `now`; stop at the first that is not. */
  function Evict(h: seq<Sample>, now: real, window: real): seq<Sample>
  {
    if |h| > 0 && now - h[0].t > window then Evict(h[1..], now, window) else h
  }

  /** Eviction keeps a suffix, in order, of what it is given; every entry it drops
      was stale; the first it keeps (if any) is not. */
  lemma {:induction false} EvictSuffix(h: seq<Sample>, now: real, window: real)
    ensures var r := Evict(h, now, window);
      |r| <= |h| && r == h[|h| - |r|..]
      && (forall i :: 0 <= i < |h| - |r| ==> now - h[i].t > window)
      && (r != [] ==> now - r[0].t <= window)
  {
    if |h| > 0 && now - h[0].t > window {
      var t := h[1..];
      EvictSuffix(t, now, window);
      var r := Evict(t, now, window);
      assert t[|t| - |r|..] == h[|h| - |r|..];
      forall i | 0 <= i < |h| - |r| ensures now - h[i].t > window {
        if i > 0 {
          assert h[i] == t[i - 1];
        }
      }
    }
  }

  /** With non-decreasing timestamps every entry eviction keeps lies in the window,
      and the result is still sorted. */
  lemma EvictInWindow(h: seq<Sample>, now: real, window: real)
    requires Sorted(h)
    ensures Sorted(Evict(h, now, window))
    ensures forall s :: s in Evict(h, now, window) ==> now - s.t <= window
  {
    EvictSuffix(h, now, window);
    var r := Evict(h, now, window);
    forall s | s in r ensures now - s.t <= window {
      var k :| 0 <= k < |r| && r[k] == s;
      assert r[0] == h[|h| - |r|] && r[k] == h[|h| - |r| + k];
    }
  }

  /** A fresh sample appended at the back (timestamp `now`, window >= 0) survives
      eviction and stays last, so the history is never empty afterwards. */
  lemma AppendThenEvict(h: seq<Sample>, s: Sample, window: real)
    requires window >= 0.0
    ensures var r := Evict(h + [s], s.t, window);
      1 <= |r| <= |h| + 1 && r[|r| - 1] == s && r[..|r| - 1] == h[|h| - (|r| - 1)..]
  {
    var g := h + [s];
    EvictSuffix(g, s.t, window);
    var r := Evict(g, s.t, window);
    assert !(s.t - g[|g| - 1].t > window);
    assert r == g[|g| - |r|..];
    assert r[..|r| - 1] == g[|g| - |r|..|g| - 1];
  }

  /** Appending a sample no older than the last keeps the history sorted. */
  lemma AppendSorted(h: seq<Sample>, s: Sample)
    requires Sorted(h) && (h == [] || h[|h| - 1].t <= s.t)
    ensures Sorted(h + [s])
  {
  }

  /** Everything `update_info` promises of its history, in one place: the new
      sample is last, the older entries are a suffix of the previous history, and
      on a sorted history that `now` does not precede the result is sorted and
      lies in the window. */
  lemma RecordSample(h: seq<Sample>, s: Sample, window: real)
    requires window >= 0.0
    ensures var r := Evict(h + [s], s.t, window);
      && 1 <= |r| <= |h| + 1 && r[|r| - 1] == s
      && var older := r[..|r| - 1];
         |older| <= |h| && older == h[|h| - |older|..]
    ensures Sorted(h) && (h == [] || h[|h| - 1].t <= s.t) ==>
      var r := Evict(h + [s], s.t, window);
      Sorted(r) && forall e :: e in r ==> s.t - e.t <= window
  {
    AppendThenEvict(h, s, window);
    if Sorted(h) && (h == [] || h[|h| - 1].t <= s.t) {
      AppendSorted(h, s);
      EvictInWindow(h + [s], s.t, window);
    }
  }

  // ---------------------------------------------------------------------------
  // 3-second slope

  /** The slope window in seconds. */
  const SlopeWindow: real := 3.0

  /** Below this elapsed time the slope guard returns 0. */
  const MinElapsed: real := 1e-6

  /** The backward scan of `get_slope_3s`: the index of the newest entry whose
      timestamp is at or before `target`, if any. */
  function LatestAtOrBefore(h: seq<Sample>, target: real): (r: Option<nat>)
    ensures r.Some? ==> r.value < |h| && h[r.value].t <= target
                        && forall j :: r.value < j < |h| ==> h[j].t > target
    ensures r.None? ==> forall j :: 0 <= j < |h| ==> h[j].t > target
  {
    if |h| == 0 then None
    else if h[|h| - 1].t <= target then Some(|h| - 1)
    else LatestAtOrBefore(h[..|h| - 1], target)
  }

  /** One step of the backward scan over the prefix `h[..i]`. */
  lemma LatestStep(h: seq<Sample>, i: nat, target: real)
    requires 0 < i <= |h|
    ensures LatestAtOrBefore(h[..i], target)
         == if h[i - 1].t <= target then Some(i - 1) else LatestAtOrBefore(h[..i - 1], target)
  {
    assert h[..i][..i - 1] == h[..i - 1];
  }

  /** `get_slope_3s` at time `now`, with `current` the monitor's current temperature. */
  function Slope3s(h: seq<Sample>, current: real, now: real): real
  {
    if |h| < 2 then 0.0
    else match LatestAtOrBefore(h, now - SlopeWindow)
      case None => 0.0
      case Some(k) =>
        var dt := now - h[k].t;
        if dt < MinElapsed then 0.0 else (current - h[k].temp) / dt
  }

  /** The slope is 0 when there are fewer than two entries, or none at or before `now - 3`. */
  lemma SlopeZeroCases(h: seq<Sample>, current: real, now: real)
    requires |h| < 2 || forall j :: 0 <= j < |h| ==> h[j].t > now - SlopeWindow
    ensures Slope3s(h, current, now) == 0.0
  {
  }

  /** Otherwise the slope is taken against the newest entry at or before `now - 3`,
      over an elapsed time of at least 3 seconds (so the 1e-6 guard never fires). */
  lemma SlopeFormula(h: seq<Sample>, current: real, now: real, k: nat)
    requires |h| >= 2 && k < |h| && h[k].t <= now - SlopeWindow
    requires forall j :: k < j < |h| ==> h[j].t > now - SlopeWindow
    ensures now - h[k].t >= SlopeWindow
    ensures Slope3s(h, current, now) == (current - h[k].temp) / (now - h[k].t)
  {
    var r := LatestAtOrBefore(h, now - SlopeWindow);
    assert r.Some?;
  }

  /** A sample appended to an empty history at its own time survives the
      eviction alone, and a one-entry history has slope 0. */
  lemma FreshHistory(s: Sample, window: real, current: real, now: real)
    requires window >= 0.0
    ensures Evict([] + [s], s.t, window) == [s]
    ensures Slope3s([s], current, now) == 0.0
  {
  }

  // ---------------------------------------------------------------------------
  // eta

  /** Below this power limit the eta ratio is taken to be 0. */
  const MinPowerLimit: real := 1e-6

  /** The eta ratio of `get_observation`: power draw over power limit, 0 for a limit
      at or below 1e-6, capped at 1 from above and NOT clamped from below. */
  function Eta(draw: real, limit: real): (e: real)
    ensures e <= 1.0
    ensures limit <= MinPowerLimit ==> e == 0.0
    ensures limit > MinPowerLimit && draw >= limit ==> e == 1.0
    ensures limit > MinPowerLimit && draw <= limit ==> e * limit == draw
    ensures draw >= 0.0 && limit > 0.0 ==> 0.0 <= e
  {
    var eta := if limit > MinPowerLimit then draw / limit else 0.0;
    assert limit > MinPowerLimit && draw >= limit ==> eta >= 1.0 by {
      if limit > MinPowerLimit && draw >= limit {
        assert draw / limit >= limit / limit;
      }
    }
    if eta > 1.0 then 1.0 else eta
  }

  /** Nothing clamps eta from below: a negative draw gives a negative eta. */
  lemma EtaUnclampedBelow()
    ensures Eta(-30.0, 150.0) == -0.2
  {
  }
}
