/** Motion sampling (cen/core/motion.py): the notification gate of a motion
    event, the JPEG encoding of its frame, and the frame-differencing detector.
    The vision library (capture, grayscale conversion, difference, threshold,
    contour extraction and JPEG encoding) is abstracted into oracles.

    Every lemma carries `{:induction false}`, including those that do no
    induction: Dafny's automatic induction would otherwise add induction
    hypotheses over the recursive functions they mention, which makes even
    short proofs expensive to check. */
module Motion {
  import opened Wrappers

  /** An image buffer as the vision library hands it over; only the oracles look inside. */
  datatype Image = Image(pixels: seq<int>)

  type byte = b: int | 0 <= b < 256

  /** A contour area as the vision library reports it (a non-negative float). */
  type Area = r: real | 0.0 <= r

  /** The vision library: grayscale conversion of a captured frame, and the
      areas of the contours found in the thresholded absolute difference of a
      previous and a current grayscale frame. */
  datatype Vision = Vision(toGray: Image -> Image, contourAreas: (Image, Image) -> seq<Area>)

  /** The JPEG encoder: given a frame and a quality, a success flag and a buffer. */
  type Codec = (Image, int) -> (bool, seq<byte>)

  /** The quality `encode_jpeg` uses when its caller passes none. */
  const DefaultJpegQuality := 90

  /** One camera read: a failed read, or a frame together with the clock
      reading that becomes the timestamp of an event emitted for it. */
  datatype Read = Failed | Captured(frame: Image, at: int)

  /** The immutable part of a motion event. */
  datatype Detection = Detection(timestamp: int, frame: Option<Image>, motionArea: int, numContours: int)

  // ---------------------------------------------------------------------------
  // The notification gate of should_notify
  // ---------------------------------------------------------------------------

  /** The answer of one gate call and the value of `last_notified_at` after it. */
  datatype GateStep = GateStep(notify: bool, last: int)

  /** One call of `should_notify(minInterval)` on an event with the given
      timestamp whose `last_notified_at` is `last`; 0 means "never notified". */
  function Gate(last: int, timestamp: int, minInterval: int): GateStep
  {
    if last == 0 then GateStep(true, timestamp)
    else if timestamp - last >= minInterval then GateStep(true, timestamp)
    else GateStep(false, last)
  }

  /** The answers of successive gate calls with the timestamps `ts`, starting
      from `last`, each call seeing the field left by the previous one. */
  function GateRun(last: int, ts: seq<int>, minInterval: int): (answers: seq<bool>)
    ensures |answers| == |ts|
    decreases |ts|
  {
    if ts == [] then []
    else
      var g := Gate(last, ts[0], minInterval);
      [g.notify] + GateRun(g.last, ts[1..], minInterval)
  }

  /** No answer in positions lo..hi-1 is true. */
  predicate NoneTrue(answers: seq<bool>, lo: int, hi: int)
    requires 0 <= lo && hi <= |answers|
  {
    forall k :: lo <= k < hi ==> !answers[k]
  }

  /** The first answer of a run is the gate's own. */
  lemma {:induction false} GateRunHead(last: int, ts: seq<int>, minInterval: int)
    requires ts != []
    ensures GateRun(last, ts, minInterval)[0] == Gate(last, ts[0], minInterval).notify
  {
  }

  /** A later answer of a run is an answer of the run from the state the
      first gate call leaves. */
  lemma {:induction false} GateRunAt(last: int, ts: seq<int>, minInterval: int, k: int)
    requires 0 < k < |ts|
    ensures GateRun(last, ts, minInterval)[k] == GateRun(Gate(last, ts[0], minInterval).last, ts[1..], minInterval)[k - 1]
  {
  }

  /** A stretch without true answers, seen from the run after the first step. */
  lemma {:induction false} GateRunNoneTail(last: int, ts: seq<int>, minInterval: int, lo: int, hi: int)
    requires ts != [] && 1 <= lo <= hi <= |ts|
    requires NoneTrue(GateRun(last, ts, minInterval), lo, hi)
    ensures NoneTrue(GateRun(Gate(last, ts[0], minInterval).last, ts[1..], minInterval), lo - 1, hi - 1)
  {
    forall k | lo - 1 <= k < hi - 1
      ensures !GateRun(Gate(last, ts[0], minInterval).last, ts[1..], minInterval)[k]
    {
      GateRunAt(last, ts, minInterval, k + 1);
    }
  }

  /** The first true answer after a real (non-zero) `last` comes at least
      `minInterval` after it: refusals keep `last` in place. */
  lemma {:induction false} GateRunFirstAfter(last: int, ts: seq<int>, minInterval: int, j: int)
    requires last != 0 && 0 <= j < |ts|
    requires GateRun(last, ts, minInterval)[j] && NoneTrue(GateRun(last, ts, minInterval), 0, j)
    ensures ts[j] - last >= minInterval
    decreases j
  {
    GateRunHead(last, ts, minInterval);
    if j > 0 {
      GateRunAt(last, ts, minInterval, j);
      assert !Gate(last, ts[0], minInterval).notify;
      GateRunNoneTail(last, ts, minInterval, 1, j);
      GateRunFirstAfter(last, ts[1..], minInterval, j - 1);
    }
  }

  /** With non-zero timestamps, two consecutive true answers of the gate are
      at least `minInterval` apart. The timestamps need not be increasing. */
  lemma {:induction false} GateRunPairSpacing(last: int, ts: seq<int>, minInterval: int, i: int, j: int)
    requires forall k :: 0 <= k < |ts| ==> ts[k] != 0
    requires 0 <= i < j < |ts|
    requires GateRun(last, ts, minInterval)[i] && GateRun(last, ts, minInterval)[j]
    requires NoneTrue(GateRun(last, ts, minInterval), i + 1, j)
    ensures ts[j] - ts[i] >= minInterval
    decreases i
  {
    var g := Gate(last, ts[0], minInterval);
    GateRunNoneTail(last, ts, minInterval, i + 1, j);
    GateRunAt(last, ts, minInterval, j);
    assert ts[1..][j - 1] == ts[j];
    if i == 0 {
      GateRunHead(last, ts, minInterval);
      assert g.last == ts[0] && ts[0] != 0;
      GateRunFirstAfter(ts[0], ts[1..], minInterval, j - 1);
    } else {
      assert ts[1..][i - 1] == ts[i];
      GateRunAt(last, ts, minInterval, i);
      assert forall k :: 0 <= k < |ts[1..]| ==> ts[1..][k] != 0 by {
        forall k | 0 <= k < |ts[1..]| ensures ts[1..][k] != 0 { assert ts[1..][k] == ts[k + 1]; }
      }
      GateRunPairSpacing(g.last, ts[1..], minInterval, i - 1, j - 1);
    }
  }

  /** The throttle property of `should_notify` over a run of calls. */
  lemma {:induction false} GateRunSpacing(last: int, ts: seq<int>, minInterval: int)
    requires forall k :: 0 <= k < |ts| ==> ts[k] != 0
    ensures var r := GateRun(last, ts, minInterval);
      forall i, j :: 0 <= i < j < |ts| && r[i] && r[j] && NoneTrue(r, i + 1, j) ==>
        ts[j] - ts[i] >= minInterval
    ensures var r := GateRun(last, ts, minInterval);
      last != 0 ==> forall j :: 0 <= j < |ts| && r[j] && NoneTrue(r, 0, j) ==> ts[j] - last >= minInterval
  {
    var r := GateRun(last, ts, minInterval);
    forall i, j | 0 <= i < j < |ts| && r[i] && r[j] && NoneTrue(r, i + 1, j)
      ensures ts[j] - ts[i] >= minInterval
    {
      GateRunPairSpacing(last, ts, minInterval, i, j);
    }
    if last != 0 {
      forall j | 0 <= j < |ts| && r[j] && NoneTrue(r, 0, j)
        ensures ts[j] - last >= minInterval
      {
        GateRunFirstAfter(last, ts, minInterval, j);
      }
    }
  }

  // ---------------------------------------------------------------------------
  // Contour aggregation of one compared frame pair
  // ---------------------------------------------------------------------------

  /** The contour areas at or above the sensitivity, in the order found. */
  function Qualifying(areas: seq<Area>, minArea: int): (q: seq<Area>)
    ensures |q| <= |areas|
    ensures forall a :: a in q <==> a in areas && a >= minArea as real
    decreases |areas|
  {
    if areas == [] then []
    else
      var rest := Qualifying(areas[1..], minArea);
      assert forall a :: a in areas <==> a == areas[0] || a in areas[1..];
      if areas[0] >= minArea as real then [areas[0]] + rest else rest
  }

  /** The sum of the areas, each truncated to an integer as `int(area)` does. */
  function TruncatedSum(areas: seq<Area>): (total: int)
    ensures total >= 0
    decreases |areas|
  {
    if areas == [] then 0 else areas[0].Floor + TruncatedSum(areas[1..])
  }

  lemma {:induction false} QualifyingAppend(areas: seq<Area>, a: Area, minArea: int)
    ensures Qualifying(areas + [a], minArea)
         == Qualifying(areas, minArea) + (if a >= minArea as real then [a] else [])
    decreases |areas|
  {
    if areas == [] {
      assert areas + [a] == [a];
      assert [a][1..] == [];
    } else {
      assert (areas + [a])[1..] == areas[1..] + [a];
      QualifyingAppend(areas[1..], a, minArea);
    }
  }

  lemma {:induction false} TruncatedSumAppend(areas: seq<Area>, a: Area)
    ensures TruncatedSum(areas + [a]) == TruncatedSum(areas) + a.Floor
    decreases |areas|
  {
    if areas == [] {
      assert areas + [a] == [a];
      assert [a][1..] == [];
    } else {
      assert (areas + [a])[1..] == areas[1..] + [a];
      TruncatedSumAppend(areas[1..], a);
    }
  }

  /** The truncated sum is positive exactly when some area is at least 1. */
  lemma {:induction false} TruncatedSumPositive(areas: seq<Area>)
    ensures TruncatedSum(areas) > 0 <==> exists a :: a in areas && a >= 1.0
    decreases |areas|
  {
    if areas != [] {
      TruncatedSumPositive(areas[1..]);
      var head := areas[0];
      assert head.Floor > 0 <==> head >= 1.0;
      assert TruncatedSum(areas) == head.Floor + TruncatedSum(areas[1..]);
      if TruncatedSum(areas) > 0 {
        if head.Floor > 0 {
          assert head in areas;
        } else {
          var a :| a in areas[1..] && a >= 1.0;
          assert a in areas;
        }
      }
      if exists a :: a in areas && a >= 1.0 {
        var a :| a in areas && a >= 1.0;
        if a != head {
          assert a in areas[1..];
        }
      }
    }
  }

  /** The aggregation loop over the contours of one compared frame pair: the
      summed truncated area and the list of qualifying contours. */
  method Aggregate(areas: seq<Area>, minArea: int) returns (totalArea: int, qualifying: seq<Area>)
    ensures qualifying == Qualifying(areas, minArea)
    ensures totalArea == TruncatedSum(qualifying)
  {
    totalArea := 0;
    qualifying := [];
    var i := 0;
    while i < |areas|
      invariant 0 <= i <= |areas|
      invariant qualifying == Qualifying(areas[..i], minArea)
      invariant totalArea == TruncatedSum(qualifying)
    {
      var area := areas[i];
      assert areas[..i + 1] == areas[..i] + [area];
      QualifyingAppend(areas[..i], area, minArea);
      if area >= minArea as real {
        TruncatedSumAppend(qualifying, area);
        totalArea := totalArea + area.Floor;
        qualifying := qualifying + [area];
      }
      i := i + 1;
    }
    assert areas[..i] == areas;
  }

  /** Sensitivity 500 and areas 600, 700 and 100 give a motion area of 1300
      from two contours. */
  lemma {:induction false} AggregateExample()
    ensures Qualifying([600.0, 700.0, 100.0], 500) == [600.0, 700.0]
    ensures TruncatedSum(Qualifying([600.0, 700.0, 100.0], 500)) == 1300
  {
    var areas: seq<Area> := [600.0, 700.0, 100.0];
    assert areas[1..] == [700.0, 100.0];
    assert areas[1..][1..] == [100.0];
    assert areas[1..][1..][1..] == [];
    var q: seq<Area> := [600.0, 700.0];
    assert q[1..] == [700.0];
    assert q[1..][1..] == [];
  }

  // ---------------------------------------------------------------------------
  // One iteration of detect_events, and a run of iterations
  // ---------------------------------------------------------------------------

  /** The stored previous grayscale frame after an iteration, and the event it emits. */
  datatype SampleStep = SampleStep(prev: Option<Image>, detection: Option<Detection>)

  /** One iteration of the sampling loop on the stored grayscale frame `prev`. */
  function Sample(prev: Option<Image>, read: Read, minArea: int, vision: Vision): SampleStep
  {
    match read
    case Failed => SampleStep(prev, None)
    case Captured(frame, at) =>
      var gray := vision.toGray(frame);
      if prev.None? then SampleStep(Some(gray), None)
      else
        var q := Qualifying(vision.contourAreas(prev.value, gray), minArea);
        var total := TruncatedSum(q);
        SampleStep(Some(gray), if total > 0 then Some(Detection(at, Some(frame), total, |q|)) else None)
  }

  /** The events emitted by a run of iterations over the samples, in order. */
  function Scan(prev: Option<Image>, samples: seq<Read>, minArea: int, vision: Vision): seq<Detection>
    decreases |samples|
  {
    if samples == [] then []
    else
      var s := Sample(prev, samples[0], minArea, vision);
      (if s.detection.Some? then [s.detection.value] else []) + Scan(s.prev, samples[1..], minArea, vision)
  }

  /** The stored grayscale frame after a run of iterations over the samples. */
  function FinalPrev(prev: Option<Image>, samples: seq<Read>, minArea: int, vision: Vision): Option<Image>
    decreases |samples|
  {
    if samples == [] then prev
    else FinalPrev(Sample(prev, samples[0], minArea, vision).prev, samples[1..], minArea, vision)
  }

  /** The samples that delivered a frame. */
  function Captures(samples: seq<Read>): (cs: seq<Read>)
    ensures |cs| <= |samples|
    ensures forall r :: r in cs <==> r in samples && r.Captured?
    decreases |samples|
  {
    if samples == [] then []
    else
      assert forall r :: r in samples <==> r == samples[0] || r in samples[1..];
      (if samples[0].Captured? then [samples[0]] else []) + Captures(samples[1..])
  }

  /** A run over `a + b` is the run over `a` followed by the run over `b` from
      the frame `a` leaves stored: the stored frame is the detector's whole state. */
  lemma {:induction false} ScanSplit(prev: Option<Image>, a: seq<Read>, b: seq<Read>, minArea: int, vision: Vision)
    ensures Scan(prev, a + b, minArea, vision)
         == Scan(prev, a, minArea, vision) + Scan(FinalPrev(prev, a, minArea, vision), b, minArea, vision)
    ensures FinalPrev(prev, a + b, minArea, vision)
         == FinalPrev(FinalPrev(prev, a, minArea, vision), b, minArea, vision)
    decreases |a|
  {
    if a == [] {
      assert a + b == b;
    } else {
      var s := Sample(prev, a[0], minArea, vision);
      var head := if s.detection.Some? then [s.detection.value] else [];
      assert (a + b)[0] == a[0];
      assert (a + b)[1..] == a[1..] + b;
      ScanSplit(s.prev, a[1..], b, minArea, vision);
      assert Scan(prev, a + b, minArea, vision) == head + Scan(s.prev, a[1..] + b, minArea, vision);
      assert Scan(prev, a, minArea, vision) == head + Scan(s.prev, a[1..], minArea, vision);
    }
  }

  /** A run over one sample is one iteration. */
  lemma {:induction false} ScanSingle(prev: Option<Image>, read: Read, minArea: int, vision: Vision)
    ensures var s := Sample(prev, read, minArea, vision);
      Scan(prev, [read], minArea, vision) == (if s.detection.Some? then [s.detection.value] else []) &&
      FinalPrev(prev, [read], minArea, vision) == s.prev
  {
    assert [read][1..] == [];
  }

  /** A run over one more sample is the run so far followed by one iteration
      from the frame it left stored. */
  lemma {:induction false} ScanSnoc(prev: Option<Image>, samples: seq<Read>, i: nat, minArea: int, vision: Vision)
    requires i < |samples|
    ensures var s := Sample(FinalPrev(prev, samples[..i], minArea, vision), samples[i], minArea, vision);
      Scan(prev, samples[..i + 1], minArea, vision)
        == Scan(prev, samples[..i], minArea, vision) + (if s.detection.Some? then [s.detection.value] else []) &&
      FinalPrev(prev, samples[..i + 1], minArea, vision) == s.prev
  {
    assert samples[..i + 1] == samples[..i] + [samples[i]];
    ScanSplit(prev, samples[..i], [samples[i]], minArea, vision);
    ScanSingle(FinalPrev(prev, samples[..i], minArea, vision), samples[i], minArea, vision);
  }

  /** Failed samples neither emit events nor change the stored frame: a run
      behaves as the run over its captured frames alone. */
  lemma {:induction false} FailedReadsInert(prev: Option<Image>, samples: seq<Read>, minArea: int, vision: Vision)
    ensures Scan(prev, samples, minArea, vision) == Scan(prev, Captures(samples), minArea, vision)
    ensures FinalPrev(prev, samples, minArea, vision) == FinalPrev(prev, Captures(samples), minArea, vision)
    decreases |samples|
  {
    if samples != [] {
      var s := Sample(prev, samples[0], minArea, vision);
      FailedReadsInert(s.prev, samples[1..], minArea, vision);
      var cs := Captures(samples);
      if samples[0].Captured? {
        assert cs == [samples[0]] + Captures(samples[1..]);
        assert cs[0] == samples[0] && cs[1..] == Captures(samples[1..]);
      } else {
        assert cs == Captures(samples[1..]);
        assert s == SampleStep(prev, None);
      }
    }
  }

  /** The very first frame only primes the detector: a run that starts with
      nothing stored emits fewer events than it captures frames, and with any
      stored frame at most one event per captured frame. */
  lemma {:induction false} EventsBoundedByFrames(prev: Option<Image>, samples: seq<Read>, minArea: int, vision: Vision)
    ensures |Scan(prev, samples, minArea, vision)| <= |Captures(samples)|
    ensures prev.None? && |Captures(samples)| > 0 ==> |Scan(prev, samples, minArea, vision)| < |Captures(samples)|
    decreases |samples|
  {
    if samples != [] {
      var s := Sample(prev, samples[0], minArea, vision);
      EventsBoundedByFrames(s.prev, samples[1..], minArea, vision);
      assert Captures(samples) == (if samples[0].Captured? then [samples[0]] else []) + Captures(samples[1..]);
      assert Scan(prev, samples, minArea, vision)
          == (if s.detection.Some? then [s.detection.value] else []) + Scan(s.prev, samples[1..], minArea, vision);
    }
  }

  /** Every emitted event carries its frame, a positive motion area and at
      least one qualifying contour, and has a timestamp of some captured read. */
  lemma {:induction false} EventsArePositive(prev: Option<Image>, samples: seq<Read>, minArea: int, vision: Vision)
    ensures forall d :: d in Scan(prev, samples, minArea, vision) ==>
      d.frame.Some? && d.motionArea > 0 && d.numContours >= 1 &&
      Captured(d.frame.value, d.timestamp) in samples
    decreases |samples|
  {
    if samples != [] {
      var s := Sample(prev, samples[0], minArea, vision);
      EventsArePositive(s.prev, samples[1..], minArea, vision);
      assert forall r :: r in samples[1..] ==> r in samples;
      if s.detection.Some? {
        var frame := samples[0].frame;
        var q := Qualifying(vision.contourAreas(prev.value, vision.toGray(frame)), minArea);
        assert TruncatedSum(q) > 0;
        assert |q| >= 1;
      }
    }
  }

  /** A compared pair of frames emits an event exactly when some contour is at
      or above the sensitivity and covers at least one whole pixel; the stored
      frame is replaced by the new grayscale frame whether or not it does. */
  lemma {:induction false} CompareEmitsIff(prevGray: Image, frame: Image, at: int, minArea: int, vision: Vision)
    ensures var s := Sample(Some(prevGray), Captured(frame, at), minArea, vision);
      s.prev == Some(vision.toGray(frame)) &&
      (s.detection.Some? <==>
        exists a :: a in vision.contourAreas(prevGray, vision.toGray(frame)) && a >= minArea as real && a >= 1.0)
  {
    var q := Qualifying(vision.contourAreas(prevGray, vision.toGray(frame)), minArea);
    TruncatedSumPositive(q);
  }

  // ---------------------------------------------------------------------------
  // MotionEvent
  // ---------------------------------------------------------------------------

  /** A motion event. Only `lastNotifiedAt` is ever reassigned. */
  class MotionEvent {
    const timestamp: int
    const frame: Option<Image>
    var lastNotifiedAt: int
    const motionArea: int
    const numContours: int

    constructor (timestamp: int, frame: Option<Image>, motionArea: int, numContours: int)
      ensures this.timestamp == timestamp && this.frame == frame
      ensures this.motionArea == motionArea && this.numContours == numContours
      ensures lastNotifiedAt == 0
    {
      this.timestamp := timestamp;
      this.frame := frame;
      this.motionArea := motionArea;
      this.numContours := numContours;
      lastNotifiedAt := 0;
    }

    function Data(): Detection
    {
      Detection(timestamp, frame, motionArea, numContours)
    }

    /** The throttle: the first call always notifies, a later one only when at
        least `minInterval` has passed since the last notification; a refusal
        leaves the field alone. */
    method ShouldNotify(minInterval: int) returns (notify: bool)
      modifies this`lastNotifiedAt
      ensures old(lastNotifiedAt) == 0 ==> notify && lastNotifiedAt == timestamp
      ensures old(lastNotifiedAt) != 0 ==> (notify <==> timestamp - old(lastNotifiedAt) >= minInterval)
      ensures notify ==> lastNotifiedAt == timestamp
      ensures !notify ==> lastNotifiedAt == old(lastNotifiedAt)
      ensures GateStep(notify, lastNotifiedAt) == Gate(old(lastNotifiedAt), timestamp, minInterval)
    {
      if lastNotifiedAt == 0 {
        lastNotifiedAt := timestamp;
        return true;
      }
      if timestamp - lastNotifiedAt >= minInterval {
        lastNotifiedAt := timestamp;
        return true;
      }
      return false;
    }

    /** The JPEG encoding of the event's frame: an event without a frame yields
        failure and no bytes without consulting the encoder, and a failed
        encoding never carries bytes. */
    function EncodeJpeg(codec: Codec, quality: int): (r: (bool, seq<byte>))
      ensures frame.None? ==> r == (false, [])
      ensures r.0 ==> frame.Some? && r == codec(frame.value, quality)
      ensures !r.0 ==> r.1 == []
    {
      if frame.None? then (false, [])
      else
        var (ret, buf) := codec(frame.value, quality);
        (ret, if ret then buf else [])
    }
  }

  /** The immutable parts of a sequence of events. */
  function EventData(events: seq<MotionEvent>): (ds: seq<Detection>)
    ensures |ds| == |events|
    ensures forall i :: 0 <= i < |events| ==> ds[i] == events[i].Data()
    decreases |events|
  {
    if events == [] then [] else [events[0].Data()] + EventData(events[1..])
  }

  lemma {:induction false} EventDataAppend(events: seq<MotionEvent>, e: MotionEvent)
    ensures EventData(events + [e]) == EventData(events) + [e.Data()]
  {
  }

  // ---------------------------------------------------------------------------
  // MotionDetector
  // ---------------------------------------------------------------------------

  /** The detector: the sensitivity, the stored previous grayscale frame and
      the number of times the capture device has been released. */
  class MotionDetector {
    const minContourArea: int
    var prevGray: Option<Image>
    var releases: nat

    constructor (minContourArea: int)
      ensures this.minContourArea == minContourArea
      ensures prevGray == None && releases == 0
    {
      this.minContourArea := minContourArea;
      prevGray := None;
      releases := 0;
    }

    /** One iteration of the sampling loop of `detect_events`. */
    method Step(read: Read, vision: Vision) returns (event: MotionEvent?)
      modifies this`prevGray
      ensures var s := Sample(old(prevGray), read, minContourArea, vision);
        prevGray == s.prev &&
        (event == null <==> s.detection.None?) &&
        (event != null ==> fresh(event) && event.Data() == s.detection.value && event.lastNotifiedAt == 0)
    {
      event := null;
      if read.Failed? {
        return;
      }
      var gray := vision.toGray(read.frame);
      if prevGray.None? {
        prevGray := Some(gray);
        return;
      }
      var totalArea, qualifying := Aggregate(vision.contourAreas(prevGray.value, gray), minContourArea);
      var motionDetected := totalArea > 0;
      prevGray := Some(gray);
      if motionDetected {
        event := new MotionEvent(read.at, Some(read.frame), totalArea, |qualifying|);
      }
    }

    /** The events `detect_events` yields while consuming the given samples. */
    method DetectEvents(samples: seq<Read>, vision: Vision) returns (events: seq<MotionEvent>)
      modifies this`prevGray
      ensures EventData(events) == Scan(old(prevGray), samples, minContourArea, vision)
      ensures prevGray == FinalPrev(old(prevGray), samples, minContourArea, vision)
      ensures forall e :: e in events ==> fresh(e) && e.lastNotifiedAt == 0
    {
      events := [];
      var i := 0;
      while i < |samples|
        invariant 0 <= i <= |samples|
        invariant forall e :: e in events ==> fresh(e) && e.lastNotifiedAt == 0
        invariant EventData(events) == Scan(old(prevGray), samples[..i], minContourArea, vision)
        invariant prevGray == FinalPrev(old(prevGray), samples[..i], minContourArea, vision)
      {
        ScanSnoc(old(prevGray), samples, i, minContourArea, vision);
        var event := Step(samples[i], vision);
        if event != null {
          var e: MotionEvent := event;
          EventDataAppend(events, e);
          events := events + [e];
        }
        i := i + 1;
      }
      assert samples[..i] == samples;
    }

    /** Releases the capture device. */
    method Close()
      modifies this`releases
      ensures releases == old(releases) + 1
    {
      releases := releases + 1;
    }
  }
}
