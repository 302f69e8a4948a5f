/** The command-line layer (cen/cli/main.py): the parsing of the `--scopes`
    option of `login`, and the throttle-and-attach loop of `monitor`. The mail
    send and the wall clock are inputs: each event comes with the two clock
    readings the loop takes and with whether its send raised.

    Every lemma carries `{:induction false}`, including those that do no
    induction: Dafny's automatic induction would otherwise add induction
    hypotheses over the recursive functions they mention, which makes even
    short proofs expensive to check. */
module Cli {
  import opened Wrappers
  import opened Motion

  // ---------------------------------------------------------------------------
  // Scope list parsing
  // ---------------------------------------------------------------------------

  /** The characters Python's `str.strip()` removes. */
  predicate IsSpace(c: char)
  {
    c == ' ' || ('\t' <= c <= '\r') || ('\U{1C}' <= c <= '\U{1F}') ||
    c == '\U{85}' || c == '\U{A0}' || c == '\U{1680}' || ('\U{2000}' <= c <= '\U{200A}') ||
    c == '\U{2028}' || c == '\U{2029}' || c == '\U{202F}' || c == '\U{205F}' || c == '\U{3000}'
  }

  /** `s.split(",")`: the maximal comma-free pieces, in order; never empty. */
  function Split(s: string): (parts: seq<string>)
    ensures |parts| >= 1
    decreases |s|
  {
    if s == [] then [""]
    else
      var rest := Split(s[1..]);
      if s[0] == ',' then [""] + rest
      else [[s[0]] + rest[0]] + rest[1..]
  }

  /** No piece of a split contains the separator. */
  lemma {:induction false} SplitCommaFree(s: string)
    ensures forall p :: p in Split(s) ==> ',' !in p
    decreases |s|
  {
    if s != [] {
      var rest := Split(s[1..]);
      SplitCommaFree(s[1..]);
      if s[0] != ',' {
        assert forall p :: p in rest[1..] ==> p in rest;
        assert ',' !in [s[0]] + rest[0];
      }
    }
  }

  /** `",".join(parts)`. */
  function Join(parts: seq<string>): string
  {
    if parts == [] then "" else parts[0] + Separated(parts[1..])
  }

  /** Each of `parts` preceded by a comma. */
  function Separated(parts: seq<string>): string
    decreases |parts|
  {
    if parts == [] then "" else "," + parts[0] + Separated(parts[1..])
  }

  /** Joining a piece in front of at least one other piece. */
  lemma {:induction false} JoinCons(p: string, rest: seq<string>)
    requires rest != []
    ensures Join([p] + rest) == p + "," + Join(rest)
  {
    assert ([p] + rest)[0] == p;
    assert ([p] + rest)[1..] == rest;
    var x := rest[0];
    var t := Separated(rest[1..]);
    assert p + ("," + x + t) == p + "," + (x + t);
  }

  /** Joining after extending the first piece by one character. */
  lemma {:induction false} JoinExtend(c: char, rest: seq<string>)
    requires rest != []
    ensures Join([[c] + rest[0]] + rest[1..]) == [c] + Join(rest)
  {
    var parts := [[c] + rest[0]] + rest[1..];
    assert parts[0] == [c] + rest[0];
    assert parts[1..] == rest[1..];
    var t := Separated(rest[1..]);
    assert ([c] + rest[0]) + t == [c] + (rest[0] + t);
  }

  /** Joining the pieces with commas gives back the split text. */
  lemma {:induction false} JoinSplit(s: string)
    ensures Join(Split(s)) == s
    decreases |s|
  {
    if s != [] {
      var rest := Split(s[1..]);
      JoinSplit(s[1..]);
      assert s == [s[0]] + s[1..];
      if s[0] == ',' {
        JoinCons("", rest);
      } else {
        JoinExtend(s[0], rest);
      }
    }
  }

  /** Splitting text that starts with a comma-free piece `x`. */
  lemma {:induction false} SplitPrefix(x: string, t: string)
    requires ',' !in x
    ensures Split(x + t) == [x + Split(t)[0]] + Split(t)[1..]
    decreases |x|
  {
    if x != [] {
      assert (x + t)[0] == x[0];
      assert (x + t)[1..] == x[1..] + t;
      SplitPrefix(x[1..], t);
      assert [x[0]] + (x[1..] + Split(t)[0]) == x + Split(t)[0];
    } else {
      assert x + t == t;
      assert x + Split(t)[0] == Split(t)[0];
      assert Split(t) == [Split(t)[0]] + Split(t)[1..];
    }
  }

  /** Splitting `a + "," + b` splits the two sides. */
  lemma {:induction false} SplitConcat(a: string, b: string)
    ensures Split(a + "," + b) == Split(a) + Split(b)
  {
    var t := "," + b;
    assert a + "," + b == a + t;
    assert t[1..] == b;
    SplitConcatAux(a, t);
  }

  lemma {:induction false} SplitConcatAux(a: string, t: string)
    requires t != [] && t[0] == ','
    ensures Split(a + t) == Split(a) + Split(t[1..])
    decreases |a|
  {
    if a == [] {
      assert a + t == t;
    } else {
      SplitConcatAux(a[1..], t);
      SplitConcatStep(a, t);
    }
  }

  /** The inductive step of `SplitConcatAux`: one more leading character. */
  lemma {:induction false} SplitConcatStep(a: string, t: string)
    requires a != [] && t != [] && t[0] == ','
    requires Split(a[1..] + t) == Split(a[1..]) + Split(t[1..])
    ensures Split(a + t) == Split(a) + Split(t[1..])
  {
    assert (a + t)[0] == a[0];
    assert (a + t)[1..] == a[1..] + t;
    if a[0] == ',' {
      PiecesPrepend(Split(a[1..]), Split(t[1..]));
    } else {
      PiecesExtend(a[0], Split(a[1..]), Split(t[1..]));
    }
  }

  /** A new empty first piece in front of two lists of pieces. */
  lemma {:induction false} PiecesPrepend(u: seq<string>, v: seq<string>)
    ensures [""] + (u + v) == ([""] + u) + v
  {
  }

  /** Extending the first piece of `u + v` by a character extends that of `u`. */
  lemma {:induction false} PiecesExtend(c: char, u: seq<string>, v: seq<string>)
    requires u != []
    ensures [[c] + (u + v)[0]] + (u + v)[1..] == ([[c] + u[0]] + u[1..]) + v
  {
    assert (u + v)[1..] == u[1..] + v;
  }

  /** Splitting the comma-join of comma-free pieces gives the pieces back. */
  lemma {:induction false} SplitJoin(parts: seq<string>)
    requires |parts| >= 1
    requires forall p :: p in parts ==> ',' !in p
    ensures Split(Join(parts)) == parts
    decreases |parts|
  {
    var p := parts[0];
    if |parts| == 1 {
      assert Join(parts) == p;
      SplitPrefix(p, "");
      assert p + "" == p;
      assert Split(p) == [p];
    } else {
      var rest := parts[1..];
      assert forall q :: q in rest ==> q in parts;
      SplitJoin(rest);
      JoinUnfold(parts);
      var t := "," + Join(rest);
      assert Join(parts) == p + t;
      SplitComma(Join(rest));
      var sp := Split(t);
      assert sp[0] == "" && sp[1..] == rest;
      SplitPrefix(p, t);
      assert p + sp[0] == p;
      assert Split(p + t) == [p] + rest;
      assert [p] + rest == parts;
    }
  }

  /** Joining at least two pieces. */
  lemma {:induction false} JoinUnfold(parts: seq<string>)
    requires |parts| >= 2
    ensures Join(parts) == parts[0] + ("," + Join(parts[1..]))
  {
    var x := parts[1];
    var t := Separated(parts[2..]);
    assert parts[1..][0] == x && parts[1..][1..] == parts[2..];
    assert parts[0] + ("," + x + t) == parts[0] + ("," + (x + t));
  }

  /** Splitting text that starts with a comma. */
  lemma {:induction false} SplitComma(t: string)
    ensures Split("," + t) == [""] + Split(t)
  {
    assert ("," + t)[1..] == t;
  }

  /** No leading or trailing whitespace. */
  predicate Stripped(s: string)
  {
    s == [] || (!IsSpace(s[0]) && !IsSpace(s[|s| - 1]))
  }

  /** `s.lstrip()`. */
  function TrimLeft(s: string): (r: string)
    ensures |r| <= |s|
    decreases |s|
  {
    if s != [] && IsSpace(s[0]) then TrimLeft(s[1..]) else s
  }

  /** `s.rstrip()`. */
  function TrimRight(s: string): (r: string)
    ensures |r| <= |s|
    decreases |s|
  {
    if s != [] && IsSpace(s[|s| - 1]) then TrimRight(s[..|s| - 1]) else s
  }

  /** `lstrip` keeps a suffix that does not start with whitespace and removes
      only whitespace. */
  lemma {:induction false} TrimLeftSpec(s: string)
    ensures var r := TrimLeft(s);
      r == s[|s| - |r|..] && (r == [] || !IsSpace(r[0])) &&
      forall k :: 0 <= k < |s| - |r| ==> IsSpace(s[k])
    decreases |s|
  {
    if s != [] && IsSpace(s[0]) {
      TrimLeftSpec(s[1..]);
      var r := TrimLeft(s);
      assert s[1..][|s| - 1 - |r|..] == s[|s| - |r|..];
      assert forall k :: 1 <= k < |s| - |r| ==> s[k] == s[1..][k - 1];
    }
  }

  /** `rstrip` keeps a prefix that does not end with whitespace and removes
      only whitespace. */
  lemma {:induction false} TrimRightSpec(s: string)
    ensures var r := TrimRight(s);
      r == s[..|r|] && (r == [] || !IsSpace(r[|r| - 1])) &&
      forall k :: |r| <= k < |s| ==> IsSpace(s[k])
    decreases |s|
  {
    if s != [] && IsSpace(s[|s| - 1]) {
      TrimRightSpec(s[..|s| - 1]);
      var r := TrimRight(s);
      assert s[..|s| - 1][..|r|] == s[..|r|];
      assert forall k :: |r| <= k < |s| - 1 ==> s[k] == s[..|s| - 1][k];
    }
  }

  /** The number of whitespace characters `strip` removes at the front. */
  function LeadingSpaces(s: string): nat
  {
    |s| - |TrimLeft(s)|
  }

  /** `s.strip()`: `s` without the whitespace at both of its ends. */
  function Strip(s: string): (r: string)
    ensures Stripped(r) && |r| <= |s|
  {
    var left := TrimLeft(s);
    var r := TrimRight(left);
    assert Stripped(r) by {
      TrimLeftSpec(s);
      TrimRightSpec(left);
      if r != [] { assert r[0] == left[0]; }
    }
    r
  }

  /** What `strip` keeps is the piece of `s` after its leading whitespace, and
      everything it removes at either end is whitespace. */
  lemma {:induction false} StripSlice(s: string)
    ensures var r := Strip(s); var i := LeadingSpaces(s);
      i + |r| <= |s| && r == s[i..i + |r|] &&
      (forall k :: 0 <= k < i ==> IsSpace(s[k])) &&
      (forall k :: i + |r| <= k < |s| ==> IsSpace(s[k]))
  {
    var left := TrimLeft(s);
    var r := TrimRight(left);
    var i := |s| - |left|;
    TrimLeftSpec(s);
    TrimRightSpec(left);
    assert left == s[i..];
    assert r == left[..|r|];
    assert r == s[i..i + |r|];
    forall k | i + |r| <= k < |s|
      ensures IsSpace(s[k])
    {
      assert s[k] == left[k - i];
    }
  }

  /** A text without whitespace at its ends strips to itself. */
  lemma {:induction false} StripStripped(s: string)
    requires Stripped(s)
    ensures Strip(s) == s
  {
    var r := Strip(s);
    var i := LeadingSpaces(s);
    StripSlice(s);
    if s != [] {
      assert i == 0;
      assert i + |r| == |s|;
    }
  }

  /** The pieces that are not blank, each stripped. */
  function KeepScopes(parts: seq<string>): (scopes: seq<string>)
    ensures |scopes| <= |parts|
    ensures forall x :: x in scopes ==> x != [] && Stripped(x)
    decreases |parts|
  {
    if parts == [] then []
    else
      var x := Strip(parts[0]);
      (if x != [] then [x] else []) + KeepScopes(parts[1..])
  }

  lemma {:induction false} KeepScopesConcat(a: seq<string>, b: seq<string>)
    ensures KeepScopes(a + b) == KeepScopes(a) + KeepScopes(b)
    decreases |a|
  {
    if a == [] {
      assert a + b == b;
    } else {
      var x := Strip(a[0]);
      var head := if x != [] then [x] else [];
      assert KeepScopes(a + b) == head + KeepScopes(a[1..] + b) by {
        assert (a + b)[0] == a[0];
        assert (a + b)[1..] == a[1..] + b;
      }
      KeepScopesConcat(a[1..], b);
      assert head + (KeepScopes(a[1..]) + KeepScopes(b)) == (head + KeepScopes(a[1..])) + KeepScopes(b);
    }
  }

  lemma {:induction false} KeepScopesTidy(parts: seq<string>)
    requires forall p :: p in parts ==> p != [] && Stripped(p)
    ensures KeepScopes(parts) == parts
    decreases |parts|
  {
    if parts != [] {
      StripStripped(parts[0]);
      assert forall p :: p in parts[1..] ==> p in parts;
      KeepScopesTidy(parts[1..]);
    }
  }

  lemma {:induction false} KeepScopesCommaFree(parts: seq<string>)
    requires forall p :: p in parts ==> ',' !in p
    ensures forall x :: x in KeepScopes(parts) ==> ',' !in x
    decreases |parts|
  {
    if parts != [] {
      var x := Strip(parts[0]);
      var i := LeadingSpaces(parts[0]);
      StripSlice(parts[0]);
      assert x == parts[0][i..i + |x|];
      assert forall c :: c in x ==> c in parts[0];
      assert forall p :: p in parts[1..] ==> p in parts;
      KeepScopesCommaFree(parts[1..]);
    }
  }

  /** `[s.strip() for s in scopes.split(",") if s.strip()]`. */
  function ParseScopes(text: string): (scopes: seq<string>)
    ensures forall x :: x in scopes ==> x != [] && ',' !in x && Stripped(x)
  {
    var parts := Split(text);
    SplitCommaFree(text);
    KeepScopesCommaFree(parts);
    KeepScopes(parts)
  }

  /** Text without a comma gives its stripped self, or nothing when blank. */
  lemma {:induction false} ParseScopesSingle(text: string)
    requires ',' !in text
    ensures ParseScopes(text) == if Strip(text) == [] then [] else [Strip(text)]
  {
    SplitPrefix(text, "");
    assert text + "" == text;
    assert Split(text) == [text];
  }

  /** Parsing respects the comma structure: the scopes of `a + "," + b` are
      those of `a` followed by those of `b`, so order is kept. */
  lemma {:induction false} ParseScopesConcat(a: string, b: string)
    ensures ParseScopes(a + "," + b) == ParseScopes(a) + ParseScopes(b)
  {
    SplitConcat(a, b);
    KeepScopesConcat(Split(a), Split(b));
  }

  /** A list of non-empty, comma-free, stripped scopes survives a round trip
      through the comma-separated option text. */
  lemma {:induction false} ParseJoinedScopes(scopes: seq<string>)
    requires forall x :: x in scopes ==> x != [] && ',' !in x && Stripped(x)
    ensures ParseScopes(Join(scopes)) == scopes
  {
    if scopes != [] {
      SplitJoin(scopes);
      KeepScopesTidy(scopes);
    }
  }

  // ---------------------------------------------------------------------------
  // The monitor loop
  // ---------------------------------------------------------------------------

  /** One event from the detector with what the world does around it: the
      clock reading of the throttle check, the clock reading after the send,
      and whether the send returned (false: it raised). */
  datatype Tick = Tick(event: MotionEvent, checkedAt: int, sentAt: int, sendOk: bool)

  datatype Attachment = Attachment(filename: string, data: seq<byte>, mimeType: string)

  /** One call of `send_email`: the index of its event, that event with its
      clock readings, and the attachment passed. */
  datatype Delivery = Delivery(index: nat, tick: Tick, attachment: Option<Attachment>)

  /** The send calls of a monitor run, and whether the run ended because the
      last one raised (otherwise it ended by an interrupt after the last event). */
  datatype MonitorTrace = MonitorTrace(deliveries: seq<Delivery>, sendFailed: bool)

  /** The options of `monitor` the loop depends on, with the JPEG encoder. */
  datatype Options = Options(minInterval: int, snapshot: bool, codec: Codec)

  /** The effective spacing: an interval below 1 behaves as 1. */
  function Cooldown(minInterval: int): (d: int)
    ensures d >= 1 && d >= minInterval
    ensures minInterval >= 1 ==> d == minInterval
  {
    if minInterval >= 1 then minInterval else 1
  }

  /** The attachment the loop builds for an event. */
  function AttachmentFor(snapshot: bool, event: MotionEvent, codec: Codec): (a: Option<Attachment>)
    ensures a.Some? <==> snapshot && event.frame.Some? && codec(event.frame.value, DefaultJpegQuality).0
    ensures a.Some? ==> a.value == Attachment("snapshot.jpg", codec(event.frame.value, DefaultJpegQuality).1, "image/jpeg")
  {
    if snapshot && event.frame.Some? then
      var (ok, buf) := event.EncodeJpeg(codec, DefaultJpegQuality);
      if ok then Some(Attachment("snapshot.jpg", buf, "image/jpeg")) else None
    else None
  }

  /** The loop from event `i` on, with `lastSentAt` the time of the last send. */
  function Dispatch(ticks: seq<Tick>, i: nat, lastSentAt: int, opts: Options): MonitorTrace
    requires i <= |ticks|
    decreases |ticks| - i
  {
    if i == |ticks| then MonitorTrace([], false)
    else if ticks[i].checkedAt - lastSentAt < Cooldown(opts.minInterval) then
      Dispatch(ticks, i + 1, lastSentAt, opts)
    else
      var d := Delivery(i, ticks[i], AttachmentFor(opts.snapshot, ticks[i].event, opts.codec));
      if !ticks[i].sendOk then MonitorTrace([d], true)
      else
        var rest := Dispatch(ticks, i + 1, ticks[i].sentAt, opts);
        MonitorTrace([d] + rest.deliveries, rest.sendFailed)
  }

  /** The send calls of the loop from event `i` on. */
  function Sends(ticks: seq<Tick>, i: nat, lastSentAt: int, opts: Options): seq<Delivery>
    requires i <= |ticks|
  {
    Dispatch(ticks, i, lastSentAt, opts).deliveries
  }

  /** The `monitor` loop over the detector's events, ending in the release of
      the detector whatever ended the loop. */
  method Monitor(detector: MotionDetector, ticks: seq<Tick>, minInterval: int, snapshot: bool, codec: Codec)
    returns (trace: MonitorTrace)
    modifies detector`releases
    ensures trace == Dispatch(ticks, 0, 0, Options(minInterval, snapshot, codec))
    ensures detector.releases == old(detector.releases) + 1
  {
    ghost var opts := Options(minInterval, snapshot, codec);
    var lastSentAt := 0;
    var deliveries: seq<Delivery> := [];
    var failed := false;
    var i := 0;
    while i < |ticks| && !failed
      invariant 0 <= i <= |ticks|
      invariant failed ==> Dispatch(ticks, 0, 0, opts) == MonitorTrace(deliveries, true)
      invariant !failed ==> var rest := Dispatch(ticks, i, lastSentAt, opts);
        Dispatch(ticks, 0, 0, opts) == MonitorTrace(deliveries + rest.deliveries, rest.sendFailed)
    {
      var tick := ticks[i];
      if tick.checkedAt - lastSentAt >= Cooldown(minInterval) {
        var attachment: Option<Attachment> := None;
        if snapshot && tick.event.frame.Some? {
          var encoded := tick.event.EncodeJpeg(codec, DefaultJpegQuality);
          if encoded.0 {
            attachment := Some(Attachment("snapshot.jpg", encoded.1, "image/jpeg"));
          }
        }
        var d := Delivery(i, tick, attachment);
        ghost var rest := Sends(ticks, i + 1, tick.sentAt, opts);
        assert tick.sendOk ==> Sends(ticks, i, lastSentAt, opts) == [d] + rest;
        assert deliveries + [d] + rest == deliveries + ([d] + rest);
        deliveries := deliveries + [d];
        if tick.sendOk {
          lastSentAt := tick.sentAt;
        } else {
          failed := true;
        }
      }
      i := i + 1;
    }
    detector.Close();
    trace := MonitorTrace(deliveries, failed);
  }

  /** Unfolding one step of the loop that sends. */
  lemma {:induction false} SendsStep(ticks: seq<Tick>, i: nat, last: int, opts: Options)
    requires i < |ticks| && ticks[i].checkedAt - last >= Cooldown(opts.minInterval) && ticks[i].sendOk
    ensures Sends(ticks, i, last, opts)
      == [Delivery(i, ticks[i], AttachmentFor(opts.snapshot, ticks[i].event, opts.codec))] + Sends(ticks, i + 1, ticks[i].sentAt, opts)
    ensures |Sends(ticks, i, last, opts)| == 1 + |Sends(ticks, i + 1, ticks[i].sentAt, opts)|
    ensures forall k :: 1 <= k < |Sends(ticks, i, last, opts)| ==>
      Sends(ticks, i, last, opts)[k] == Sends(ticks, i + 1, ticks[i].sentAt, opts)[k - 1]
  {
  }

  /** Unfolding one step of the loop that skips its event. */
  lemma {:induction false} SendsSkip(ticks: seq<Tick>, i: nat, last: int, opts: Options)
    requires i < |ticks| && ticks[i].checkedAt - last < Cooldown(opts.minInterval)
    ensures Dispatch(ticks, i, last, opts) == Dispatch(ticks, i + 1, last, opts)
    ensures Sends(ticks, i, last, opts) == Sends(ticks, i + 1, last, opts)
  {
  }

  /** The send calls are for events `i` onwards, each with the clock readings
      of its event and the attachment built for it. */
  lemma {:induction false} SendsCalls(ticks: seq<Tick>, i: nat, last: int, opts: Options)
    requires i <= |ticks|
    ensures forall k :: 0 <= k < |Sends(ticks, i, last, opts)| ==>
      i <= Sends(ticks, i, last, opts)[k].index < |ticks| &&
      Sends(ticks, i, last, opts)[k].tick == ticks[Sends(ticks, i, last, opts)[k].index] &&
      Sends(ticks, i, last, opts)[k].attachment == AttachmentFor(opts.snapshot, Sends(ticks, i, last, opts)[k].tick.event, opts.codec)
    decreases |ticks| - i
  {
    if i < |ticks| {
      if ticks[i].checkedAt - last < Cooldown(opts.minInterval) {
        SendsCalls(ticks, i + 1, last, opts);
        SendsSkip(ticks, i, last, opts);
      } else if ticks[i].sendOk {
        SendsCalls(ticks, i + 1, ticks[i].sentAt, opts);
        SendsStep(ticks, i, last, opts);
      }
    }
  }

  /** The send calls follow the event order, only the last one can have
      raised, and the run ends on a raise exactly when it did. */
  lemma {:induction false} SendsOrder(ticks: seq<Tick>, i: nat, last: int, opts: Options)
    requires i <= |ticks|
    ensures forall k :: 0 <= k < |Sends(ticks, i, last, opts)| ==> i <= Sends(ticks, i, last, opts)[k].index
    ensures forall k :: 0 <= k < |Sends(ticks, i, last, opts)| - 1 ==>
      Sends(ticks, i, last, opts)[k].index < Sends(ticks, i, last, opts)[k + 1].index &&
      Sends(ticks, i, last, opts)[k].tick.sendOk
    ensures Dispatch(ticks, i, last, opts).sendFailed <==>
      |Sends(ticks, i, last, opts)| > 0 && !Sends(ticks, i, last, opts)[|Sends(ticks, i, last, opts)| - 1].tick.sendOk
    decreases |ticks| - i
  {
    if i < |ticks| {
      if ticks[i].checkedAt - last < Cooldown(opts.minInterval) {
        SendsOrder(ticks, i + 1, last, opts);
        SendsSkip(ticks, i, last, opts);
      } else if ticks[i].sendOk {
        SendsOrder(ticks, i + 1, ticks[i].sentAt, opts);
        SendsStep(ticks, i, last, opts);
      }
    }
  }

  /** The first send comes at least the cooldown after `last`, every event
      before it came within the cooldown of `last`, and when nothing is sent
      every event did. */
  lemma {:induction false} SendsFirst(ticks: seq<Tick>, i: nat, last: int, opts: Options)
    requires i <= |ticks|
    ensures |Sends(ticks, i, last, opts)| > 0 ==>
      Sends(ticks, i, last, opts)[0].tick.checkedAt - last >= Cooldown(opts.minInterval)
    ensures |Sends(ticks, i, last, opts)| > 0 ==>
      forall j :: i <= j < |ticks| && j < Sends(ticks, i, last, opts)[0].index ==>
        ticks[j].checkedAt - last < Cooldown(opts.minInterval)
    ensures |Sends(ticks, i, last, opts)| == 0 ==>
      forall j :: i <= j < |ticks| ==> ticks[j].checkedAt - last < Cooldown(opts.minInterval)
    decreases |ticks| - i
  {
    if i < |ticks| && ticks[i].checkedAt - last < Cooldown(opts.minInterval) {
      SendsFirst(ticks, i + 1, last, opts);
      SendsSkip(ticks, i, last, opts);
    }
  }

  /** Between two consecutive send calls: the second is checked at least the
      cooldown after the first one finished, and every event between them was
      checked within the cooldown of it. */
  lemma {:induction false} SendsPair(ticks: seq<Tick>, i: nat, last: int, opts: Options, k: nat)
    requires i <= |ticks|
    requires k + 1 < |Sends(ticks, i, last, opts)|
    ensures Sends(ticks, i, last, opts)[k + 1].tick.checkedAt - Sends(ticks, i, last, opts)[k].tick.sentAt
      >= Cooldown(opts.minInterval)
    ensures forall j :: Sends(ticks, i, last, opts)[k].index < j < |ticks| && j < Sends(ticks, i, last, opts)[k + 1].index ==>
      ticks[j].checkedAt - Sends(ticks, i, last, opts)[k].tick.sentAt < Cooldown(opts.minInterval)
    decreases |ticks| - i
  {
    if ticks[i].checkedAt - last < Cooldown(opts.minInterval) {
      SendsPair(ticks, i + 1, last, opts, k);
      SendsSkip(ticks, i, last, opts);
    } else {
      SendsStep(ticks, i, last, opts);
      if k == 0 {
        SendsFirst(ticks, i + 1, ticks[i].sentAt, opts);
      } else {
        SendsPair(ticks, i + 1, ticks[i].sentAt, opts, k - 1);
      }
    }
  }

  /** After the last send call of a run that was not ended by a failed send,
      every remaining event was checked within the cooldown of that send. */
  lemma {:induction false} SendsTail(ticks: seq<Tick>, i: nat, last: int, opts: Options)
    requires i <= |ticks|
    requires |Sends(ticks, i, last, opts)| > 0 && !Dispatch(ticks, i, last, opts).sendFailed
    ensures var n := |Sends(ticks, i, last, opts)| - 1;
      forall j :: Sends(ticks, i, last, opts)[n].index < j < |ticks| ==>
        ticks[j].checkedAt - Sends(ticks, i, last, opts)[n].tick.sentAt < Cooldown(opts.minInterval)
    decreases |ticks| - i
  {
    if ticks[i].checkedAt - last < Cooldown(opts.minInterval) {
      SendsTail(ticks, i + 1, last, opts);
      SendsSkip(ticks, i, last, opts);
    } else {
      SendsStep(ticks, i, last, opts);
      if Sends(ticks, i + 1, ticks[i].sentAt, opts) == [] {
        SendsFirst(ticks, i + 1, ticks[i].sentAt, opts);
      } else {
        SendsTail(ticks, i + 1, ticks[i].sentAt, opts);
      }
    }
  }

  /** With a clock that never runs backwards within an event (the reading
      after a send is no earlier than the check before it), consecutive send
      calls of a run from `last_sent_at = 0` are at least the cooldown apart,
      at the checks and at the sends. */
  lemma {:induction false} SendsSpacedByCooldown(ticks: seq<Tick>, opts: Options)
    requires forall j :: 0 <= j < |ticks| ==> ticks[j].sentAt >= ticks[j].checkedAt
    ensures forall k :: 0 <= k < |Sends(ticks, 0, 0, opts)| - 1 ==>
      Sends(ticks, 0, 0, opts)[k + 1].tick.checkedAt - Sends(ticks, 0, 0, opts)[k].tick.checkedAt >= Cooldown(opts.minInterval) &&
      Sends(ticks, 0, 0, opts)[k + 1].tick.sentAt - Sends(ticks, 0, 0, opts)[k].tick.sentAt >= Cooldown(opts.minInterval)
  {
    var ds := Sends(ticks, 0, 0, opts);
    SendsCalls(ticks, 0, 0, opts);
    forall k | 0 <= k < |ds| - 1
      ensures ds[k + 1].tick.checkedAt - ds[k].tick.checkedAt >= Cooldown(opts.minInterval)
      ensures ds[k + 1].tick.sentAt - ds[k].tick.sentAt >= Cooldown(opts.minInterval)
    {
      SendsPair(ticks, 0, 0, opts, k);
    }
  }

  /** Starting from `last_sent_at = 0`, the first event checked at a time of at
      least the cooldown, after events checked earlier than that, is sent. */
  lemma {:induction false} FirstEventSent(ticks: seq<Tick>, opts: Options, j: nat)
    requires j < |ticks| && ticks[j].checkedAt >= Cooldown(opts.minInterval)
    requires forall k :: 0 <= k < j ==> ticks[k].checkedAt < Cooldown(opts.minInterval)
    ensures |Sends(ticks, 0, 0, opts)| > 0 && Sends(ticks, 0, 0, opts)[0].index == j
  {
    SendsFirst(ticks, 0, 0, opts);
    SendsCalls(ticks, 0, 0, opts);
  }

  /** A non-positive interval behaves as an interval of 1. */
  lemma {:induction false} DispatchIntervalFloor(ticks: seq<Tick>, i: nat, last: int, opts: Options)
    requires i <= |ticks| && opts.minInterval <= 1
    ensures Dispatch(ticks, i, last, opts) == Dispatch(ticks, i, last, opts.(minInterval := 1))
    decreases |ticks| - i
  {
    if i < |ticks| {
      assert Cooldown(opts.minInterval) == Cooldown(1);
      DispatchIntervalFloor(ticks, i + 1, last, opts);
      DispatchIntervalFloor(ticks, i + 1, ticks[i].sentAt, opts);
    }
  }

  /** With an interval of 60 and events checked at clock readings 0, 10 and 70
      (each send returning at once), only the event at 70 is sent: the first
      check compares with the initial `last_sent_at` of 0, so an event is
      skipped when the clock itself reads below the cooldown. `time.time()`
      counts seconds since 1970 and never reads that low; `MonitorScenarioReal`
      is the same run at real clock readings. */
  lemma {:induction false} MonitorScenario(e: MotionEvent, codec: Codec)
    ensures var ticks := [Tick(e, 0, 0, true), Tick(e, 10, 10, true), Tick(e, 70, 70, true)];
      Dispatch(ticks, 0, 0, Options(60, false, codec)) == MonitorTrace([Delivery(2, ticks[2], None)], false)
  {
    var ticks := [Tick(e, 0, 0, true), Tick(e, 10, 10, true), Tick(e, 70, 70, true)];
    var opts := Options(60, false, codec);
    SendsSkip(ticks, 0, 0, opts);
    SendsSkip(ticks, 1, 0, opts);
    assert Dispatch(ticks, 3, 70, opts) == MonitorTrace([], false);
  }

  /** Events checked at T, T + 10 and T + 70 with an interval of 60, at a clock
      reading T no lower than the cooldown, as `time.time()` always is: the
      first event is sent, the one ten seconds later is skipped, and the one
      seventy seconds after the first is sent. */
  lemma {:induction false} MonitorScenarioReal(e: MotionEvent, codec: Codec, t: int)
    requires t >= 60
    ensures var ticks := [Tick(e, t, t, true), Tick(e, t + 10, t + 10, true), Tick(e, t + 70, t + 70, true)];
      Dispatch(ticks, 0, 0, Options(60, false, codec))
        == MonitorTrace([Delivery(0, ticks[0], None), Delivery(2, ticks[2], None)], false)
  {
    var ticks := [Tick(e, t, t, true), Tick(e, t + 10, t + 10, true), Tick(e, t + 70, t + 70, true)];
    var opts := Options(60, false, codec);
    SendsSkip(ticks, 1, t, opts);
  }
}
