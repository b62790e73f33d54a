/** Rendering an event with the specs of a format, through the per-thread caches and buffers. */
module Render {
  import opened Option
  import opened Text
  import opened LogBuffer
  import opened HexDump
  import opened Pattern

  datatype Stamp = Stamp(sec: nat, usec: nat)

  datatype TimeCache = TimeCache(text: string, sec: nat)

  /** localtime_r and strftime: broken-down time is a number here, and the C library gives both. */
  datatype Calendar = Calendar(local: nat -> int, format: (string, int) -> string)

  /** The user's message: a formatted text (None when vsnprintf fails), or a buffer to dump. */
  datatype Message = Formatted(output: Option<string>) | NullFormat | Dump(bytes: seq<Byte>) | NullBuffer

  datatype EventInfo = EventInfo(category: string, host: string, file: Option<string>, func: string, line: nat,
                                 levelLower: string, levelUpper: string, tidHex: string, tidLong: string,
                                 mdc: map<string, string>, message: Message)

  /** strrchr(file, '/') + 1. */
  function BaseName(file: string): (name: string) {
    if file == "" then ""
    else if file[|file| - 1] == '/' then ""
    else BaseName(file[..|file| - 1]) + [file[|file| - 1]]
  }

  function OrNull(s: Option<string>, alternative: string): (r: string) {
    if s.Some? then s.value else alternative
  }

  predicate UsesClock(k: Kind) {
    k.Time? || k.Millis? || k.Micros?
  }

  /** The text of a spec for an event that happens at the stamp, without caches and buffers. */
  function SpecText(spec: Spec, info: EventInfo, pid: nat, stamp: Stamp, calendar: Calendar): (r: Option<string>) {
    match spec.kind
    case ConstText => Some(spec.text)
    case Time(fmt, _) => Some(calendar.format(fmt, calendar.local(stamp.sec)))
    case Mdc(key) => Some(if key in info.mdc then info.mdc[key] else "")
    case Millis => Some(ZeroPad(Digits(stamp.usec / 1000, 10), 3))
    case Micros => Some(ZeroPad(Digits(stamp.usec, 10), 6))
    case CategoryName => Some(info.category)
    case SourceFile => Some(OrNull(info.file, "(file=null)"))
    case SourceFileNeat => Some(if info.file.Some? then BaseName(info.file.value) else "(file=null)")
    case HostName => Some(info.host)
    case SourceLine => Some(ZeroPad(Digits(info.line, 10), 0))
    case UserMessage => MessageText(info.message)
    case NewLine => Some("\n")
    case Pid => Some(Digits(pid, 10))
    case SourceFunction => Some(if info.file.None? then "(func=null)" else info.func)
    case LevelLower => Some(info.levelLower)
    case LevelUpper => Some(info.levelUpper)
    case TidHex => Some(info.tidHex)
    case TidLong => Some(info.tidLong)
    case Percent => Some("%")
  }

  /** Numbers are written so that they can be read back, the fractions of the second with their full width. */
  lemma NumbersMean(spec: Spec, info: EventInfo, pid: nat, stamp: Stamp, calendar: Calendar)
    requires stamp.usec < 1_000_000
    requires spec.kind.Millis? || spec.kind.Micros? || spec.kind.SourceLine? || spec.kind.Pid?
    ensures var r := SpecText(spec, info, pid, stamp, calendar);
            && r.Some? && AllDigits(r.value, 10)
            && (spec.kind.Millis? ==> |r.value| == 3 && Value(r.value, 10) == stamp.usec / 1000)
            && (spec.kind.Micros? ==> |r.value| == 6 && Value(r.value, 10) == stamp.usec)
            && (spec.kind.SourceLine? ==> Value(r.value, 10) == info.line && (|r.value| > 1 ==> r.value[0] != '0'))
            && (spec.kind.Pid? ==> Value(r.value, 10) == pid && (|r.value| > 1 ==> r.value[0] != '0'))
  {
    if spec.kind.Millis? {
      ThreeOrSix(stamp.usec / 1000);
      ZeroPadDenotes(stamp.usec / 1000, 10, 3);
    } else if spec.kind.Micros? {
      ThreeOrSix(stamp.usec);
      ZeroPadDenotes(stamp.usec, 10, 6);
    } else {
      var v := if spec.kind.Pid? then pid else info.line;
      DigitsDenote(v, 10);
      NoLeadingZero(v);
    }
  }

  lemma ThreeOrSix(v: nat)
    ensures v < 1000 ==> |Digits(v, 10)| <= 3
    ensures v < 1_000_000 ==> |Digits(v, 10)| <= 6
  {
    DigitsLength(v, 10, 3);
    DigitsLength(v, 10, 6);
    assert Power(10, 3) == 10 * Power(10, 2) && Power(10, 2) == 10 * Power(10, 1) && Power(10, 1) == 10 * Power(10, 0);
    assert Power(10, 6) == 10 * Power(10, 5) && Power(10, 5) == 10 * Power(10, 4) && Power(10, 4) == 10 * Power(10, 3);
  }

  lemma {:induction false} NoLeadingZero(v: nat)
    ensures |Digits(v, 10)| > 1 ==> Digits(v, 10)[0] != '0'
  {
    if v >= 10 {
      NoLeadingZero(v / 10);
      assert Digits(v, 10)[0] == Digits(v / 10, 10)[0];
    }
  }

  /** The short file name is what stands behind the last slash. */
  lemma {:induction false} BaseNameMeans(file: string)
    ensures '/' !in BaseName(file) && |BaseName(file)| <= |file|
    ensures var behind := |file| - |BaseName(file)|;
            file[behind..] == BaseName(file) && (behind == 0 || file[behind - 1] == '/')
  {
    if file != "" && file[|file| - 1] != '/' {
      BaseNameMeans(file[..|file| - 1]);
    }
  }

  /** All other texts are the event's own, with their replacements for what it does not have. */
  lemma TextsMean(spec: Spec, info: EventInfo, pid: nat, stamp: Stamp, calendar: Calendar)
    ensures var r := SpecText(spec, info, pid, stamp, calendar);
            && (forall fmt, k :: spec.kind == Time(fmt, k) ==>
                  r == Some(calendar.format(fmt, calendar.local(stamp.sec))))
            && (forall key :: spec.kind == Mdc(key) ==> r == Some(if key in info.mdc then info.mdc[key] else ""))
            && (spec.kind.ConstText? ==> r == Some(spec.text))
            && (spec.kind.CategoryName? ==> r == Some(info.category))
            && (spec.kind.SourceFile? ==> r == if info.file.Some? then info.file else Some("(file=null)"))
            && (spec.kind.SourceFileNeat? && info.file.None? ==> r == Some("(file=null)"))
            && (spec.kind.SourceFunction? ==> r == Some(if info.file.None? then "(func=null)" else info.func))
            && (spec.kind.HostName? ==> r == Some(info.host))
            && (spec.kind.LevelLower? ==> r == Some(info.levelLower))
            && (spec.kind.LevelUpper? ==> r == Some(info.levelUpper))
            && (spec.kind.TidHex? ==> r == Some(info.tidHex))
            && (spec.kind.TidLong? ==> r == Some(info.tidLong))
            && (spec.kind.NewLine? ==> r == Some("\n"))
            && (spec.kind.Percent? ==> r == Some("%"))
            && (spec.kind.UserMessage? && info.message.Formatted? ==> r == info.message.output)
            && (spec.kind.UserMessage? && info.message.NullFormat? ==> r == Some("format=(null)"))
            && (spec.kind.UserMessage? && info.message.NullBuffer? ==> r == Some("buf=(null)"))
  {
  }

  function MessageText(m: Message): (r: Option<string>) {
    match m
    case Formatted(output) => output
    case NullFormat => Some("format=(null)")
    case Dump(bytes) => Some(DumpText(HEAD, bytes))
    case NullBuffer => Some("buf=(null)")
  }

  /** Values that C's types can hold. */
  predicate Representable(info: EventInfo, stamp: Stamp) {
    && info.line <= MAX_UINT64
    && stamp.usec < 1_000_000
    && (info.message.Dump? ==> |info.message.bytes| < MAX_UINT64)
  }

  class Event {
    const calendar: Calendar
    /** The thread whose record it is in. */
    ghost const owner: nat
    var info: EventInfo
    var stamp: Stamp       // tv_sec is 0 until a spec first needs the time
    var localSec: nat
    var local: int
    var caches: seq<TimeCache>
    var pid: nat           // 0 until a spec first needs it
    var lastPid: nat
    var pidText: string

    /** Every cache that was ever filled holds what its own format gives for its own second. */
    ghost predicate Valid(fmts: seq<string>)
      reads this
    {
      && |caches| == |fmts|
      && (localSec != 0 ==> local == calendar.local(localSec))
      && (forall i :: 0 <= i < |caches| && caches[i].sec != 0 ==>
            caches[i].text == calendar.format(fmts[i], calendar.local(caches[i].sec)))
      && (lastPid != 0 ==> pidText == Digits(lastPid, 10))
      && (pid != 0 ==> pid == lastPid)
      && Representable(info, stamp)
    }

    /** zlog_event_new: all caches empty. */
    constructor (calendar: Calendar, cacheCount: nat, info: EventInfo, ghost fmts: seq<string>, ghost owner: nat)
      requires cacheCount == |fmts| && Representable(info, Stamp(0, 0))
      ensures Valid(fmts) && this.calendar == calendar && this.owner == owner
      ensures this.info == info && stamp == Stamp(0, 0) && pid == 0
    {
      this.calendar, this.info, this.owner := calendar, info, owner;
      stamp, localSec, local := Stamp(0, 0), 0, 0;
      caches := seq(cacheCount, _ => TimeCache("", 0));
      pid, lastPid, pidText := 0, 0, "";
    }

    /** zlog_event_set_fmt and zlog_event_set_hex: the caches stay, time and pid are to be read anew. */
    method Set(info: EventInfo, ghost fmts: seq<string>)
      requires Valid(fmts) && Representable(info, Stamp(0, 0))
      modifies this`info, this`pid, this`stamp
      ensures Valid(fmts) && this.info == info && stamp.sec == 0 && pid == 0
    {
      this.info := info;
      pid := 0;
      stamp := stamp.(sec := 0);
    }

    /** The clock is read at most once in an event's life. */
    method ReadClock(now: Stamp, ghost fmts: seq<string>)
      requires Valid(fmts) && now.sec != 0 && now.usec < 1_000_000
      modifies this`stamp
      ensures Valid(fmts) && stamp == if old(stamp.sec) == 0 then now else old(stamp)
    {
      if stamp.sec == 0 {
        stamp := now;
      }
    }

    /** The two caches in front of localtime_r and strftime are invisible: the text is the direct one. */
    method TimeText(index: nat, fmt: string, now: Stamp, ghost fmts: seq<string>) returns (text: string)
      requires Valid(fmts) && index < |fmts| && fmts[index] == fmt
      requires now.sec != 0 && now.usec < 1_000_000
      modifies this`stamp, this`localSec, this`local, this`caches
      ensures Valid(fmts)
      ensures stamp == if old(stamp.sec) == 0 then now else old(stamp)
      ensures text == calendar.format(fmt, calendar.local(stamp.sec))
    {
      ReadClock(now, fmts);
      if localSec != stamp.sec {
        local := calendar.local(stamp.sec);
        localSec := stamp.sec;
      }
      if caches[index].sec != stamp.sec {
        caches := caches[index := TimeCache(calendar.format(fmt, local), stamp.sec)];
      }
      text := caches[index].text;
    }

    method PidText(self: nat, ghost fmts: seq<string>) returns (text: string)
      requires Valid(fmts) && self != 0
      modifies this`pid, this`lastPid, this`pidText
      ensures Valid(fmts) && pid == (if old(pid) == 0 then self else old(pid)) && text == Digits(pid, 10)
    {
      if pid == 0 {
        pid := self;
        if pid != lastPid {
          lastPid := pid;
          pidText := Digits(pid, 10);
        }
      }
      text := pidText;
    }
  }

  // ---------------------------------------------------------------- writing one spec

  /** The text of the specs that neither read the clock nor the pid nor the message. */
  function PlainText(spec: Spec, info: EventInfo): (text: string)
    requires !UsesClock(spec.kind) && !spec.kind.Pid? && !spec.kind.UserMessage?
  {
    SpecText(spec, info, 0, Stamp(0, 0), Calendar(_ => 0, (_, _) => "")).value
  }

  method WriteMessage(buf: LogBuffer, m: Message) returns (rc: int)
    requires buf.Valid() && (m.Dump? ==> |m.bytes| < MAX_UINT64)
    modifies buf, buf.store
    ensures MessageText(m).Some? ==> buf.Wrote(MessageText(m).value, rc)
    ensures MessageText(m).None? ==>
      rc == -1 && buf.Valid() && buf.store == old(buf.store) && buf.Text() == old(buf.Text())
  {
    match m {
      case Formatted(output) => rc := buf.Vprintf(output);
      case NullFormat => rc := buf.Append("format=(null)");
      case Dump(bytes) => rc := WriteDump(buf, HEAD, bytes);
      case NullBuffer => rc := buf.Append("buf=(null)");
    }
  }

  /** The value of the event's time and pid after the spec, if they were still unread before it. */
  function StampAfter(k: Kind, stamp: Stamp, now: Stamp): (s: Stamp) {
    if UsesClock(k) && stamp.sec == 0 then now else stamp
  }

  function PidAfter(k: Kind, pid: nat, self: nat): (p: nat) {
    if k.Pid? && pid == 0 then self else pid
  }

  method WriteClockSpec(event: Event, spec: Spec, buf: LogBuffer, now: Stamp, ghost fmts: seq<string>)
    returns (rc: int)
    requires event.Valid(fmts) && buf.Valid() && UsesClock(spec.kind)
    requires spec.kind.Time? ==> spec.kind.cacheIndex < |fmts| && fmts[spec.kind.cacheIndex] == spec.kind.fmt
    requires now.sec != 0 && now.usec < 1_000_000
    modifies event`stamp, event`localSec, event`local, event`caches, buf, buf.store
    ensures event.Valid(fmts) && event.stamp == StampAfter(spec.kind, old(event.stamp), now)
    ensures buf.Wrote(SpecText(spec, event.info, event.pid, event.stamp, event.calendar).value, rc)
  {
    match spec.kind {
      case Time(fmt, index) =>
        var text := event.TimeText(index, fmt, now, fmts);
        rc := buf.Append(text);
      case Millis =>
        event.ReadClock(now, fmts);
        rc := buf.PrintDec32(event.stamp.usec / 1000, 3);
      case Micros =>
        event.ReadClock(now, fmts);
        rc := buf.PrintDec32(event.stamp.usec, 6);
    }
  }

  method WritePlainSpec(event: Event, spec: Spec, buf: LogBuffer, self: nat, ghost fmts: seq<string>)
    returns (rc: int)
    requires event.Valid(fmts) && buf.Valid() && !UsesClock(spec.kind) && !spec.kind.UserMessage? && self != 0
    modifies event`pid, event`lastPid, event`pidText, buf, buf.store
    ensures event.Valid(fmts) && event.pid == PidAfter(spec.kind, old(event.pid), self)
    ensures buf.Wrote(SpecText(spec, event.info, event.pid, event.stamp, event.calendar).value, rc)
  {
    if spec.kind.Pid? {
      var text := event.PidText(self, fmts);
      rc := buf.Append(text);
    } else if spec.kind.SourceLine? {
      rc := buf.PrintDec64(event.info.line, 0);
    } else {
      rc := buf.Append(PlainText(spec, event.info));
    }
  }

  /** write_buf of a spec: its text goes to the buffer as one write, whatever the caches hold. */
  method WriteSpec(event: Event, spec: Spec, buf: LogBuffer, now: Stamp, self: nat, ghost fmts: seq<string>)
    returns (rc: int)
    requires event.Valid(fmts) && buf.Valid()
    requires spec.kind.Time? ==> spec.kind.cacheIndex < |fmts| && fmts[spec.kind.cacheIndex] == spec.kind.fmt
    requires now.sec != 0 && now.usec < 1_000_000 && self != 0
    modifies event, buf, buf.store
    ensures event.Valid(fmts) && event.info == old(event.info)
    ensures event.stamp == StampAfter(spec.kind, old(event.stamp), now)
    ensures event.pid == PidAfter(spec.kind, old(event.pid), self)
    ensures var text := SpecText(spec, event.info, event.pid, event.stamp, event.calendar);
            && (text.Some? ==> buf.Wrote(text.value, rc))
            && (text.None? ==> rc == -1 && buf.Valid() && buf.store == old(buf.store) && buf.Text() == old(buf.Text()))
  {
    if UsesClock(spec.kind) {
      rc := WriteClockSpec(event, spec, buf, now, fmts);
    } else if spec.kind.UserMessage? {
      rc := WriteMessage(buf, event.info.message);
    } else {
      rc := WritePlainSpec(event, spec, buf, self, fmts);
    }
  }

  // ---------------------------------------------------------------- a whole message

  /** What a message depends on: the event, its one time and pid, and the side buffer's limits. */
  datatype Scene = Scene(info: EventInfo, pid: nat, stamp: Stamp, calendar: Calendar, preCap: nat, preMarker: string)

  /** The text that a spec contributes: its own, or its own cut by the side buffer and adjusted in width. */
  function Piece(spec: Spec, scene: Scene): (r: Option<string>) {
    match SpecText(spec, scene.info, scene.pid, scene.stamp, scene.calendar)
    case None => None
    case Some(t) => Some(InWidth(t, spec.width, scene))
  }

  function InWidth(t: string, width: Width, scene: Scene): (r: string) {
    match width
    case Direct => t
    case Reformat(left, least, greatest) => Adjusted(Cut(t, scene.preCap, scene.preMarker), left, least, greatest)
  }

  function Pieces(specs: seq<Spec>, scene: Scene): (texts: seq<string>) {
    if specs == [] then []
    else Pieces(specs[..|specs| - 1], scene) + [OrNull(Piece(specs[|specs| - 1], scene), "")]
  }

  predicate Renderable(specs: seq<Spec>, scene: Scene) {
    forall i :: 0 <= i < |specs| ==> Piece(specs[i], scene).Some?
  }

  /** The event's time for a whole message: the one it has, or the reading of the first spec that asks. */
  function FirstReading(specs: seq<Spec>, clock: seq<Stamp>, stamp: Stamp): (s: Stamp)
    requires |clock| == |specs|
  {
    if specs == [] || stamp.sec != 0 then stamp
    else FirstReading(specs[1..], clock[1..], StampAfter(specs[0].kind, stamp, clock[0]))
  }

  function FirstPid(specs: seq<Spec>, pid: nat, self: nat): (p: nat) {
    if specs == [] then pid else FirstPid(specs[1..], PidAfter(specs[0].kind, pid, self), self)
  }

  /** The text of the message so far. */
  function Rendered(specs: seq<Spec>, scene: Scene): (text: string) {
    if specs == [] then ""
    else Rendered(specs[..|specs| - 1], scene) + OrNull(Piece(specs[|specs| - 1], scene), "")
  }

  lemma RenderedStep(specs: seq<Spec>, i: nat, scene: Scene)
    requires i < |specs|
    ensures Rendered(specs[..i + 1], scene) == Rendered(specs[..i], scene) + OrNull(Piece(specs[i], scene), "")
  {
    assert specs[..i + 1][..i] == specs[..i];
  }

  lemma {:induction false} RenderedPrefix(specs: seq<Spec>, i: nat, scene: Scene)
    requires i <= |specs|
    ensures Rendered(specs[..i], scene) <= Rendered(specs, scene)
    decreases |specs| - i
  {
    if i == |specs| {
      assert specs[..i] == specs;
    } else {
      RenderedStep(specs, i, scene);
      RenderedPrefix(specs, i + 1, scene);
    }
  }

  /** A piece that fits extends the message; one that does not leaves the cut of the whole message. */
  lemma PieceWritten(specs: seq<Spec>, i: nat, scene: Scene, after: string, rc: int, cap: nat, marker: string)
    requires i < |specs| && Piece(specs[i], scene).Some?
    requires var sofar := Rendered(specs[..i], scene) + Piece(specs[i], scene).value;
             after == Cut(sofar, cap, marker) && rc == if Overflows(sofar, cap) then 1 else 0
    ensures rc == 0 ==> after == Rendered(specs[..i + 1], scene)
    ensures rc != 0 ==> Overflows(Rendered(specs, scene), cap) && after == Cut(Rendered(specs, scene), cap, marker)
  {
    RenderedStep(specs, i, scene);
    RenderedPrefix(specs, i + 1, scene);
    var sofar, all := Rendered(specs[..i + 1], scene), Rendered(specs, scene);
    assert all == sofar + all[|sofar|..];
    CutAgain(sofar, all[|sofar|..], cap, marker);
  }

  /** The message is the concatenation of the pieces. */
  lemma {:induction false} RenderedIsConcatenation(specs: seq<Spec>, scene: Scene)
    ensures Rendered(specs, scene) == Concat(Pieces(specs, scene))
  {
    if specs != [] {
      var front := specs[..|specs| - 1];
      RenderedIsConcatenation(front, scene);
      ConcatAppend(Pieces(front, scene), OrNull(Piece(specs[|specs| - 1], scene), ""));
    }
  }

  lemma {:induction false} ConcatAppend(texts: seq<string>, t: string)
    ensures Concat(texts + [t]) == Concat(texts) + t
  {
    if texts == [] {
      assert texts + [t] == [t] && [t][1..] == [];
    } else {
      ConcatAppend(texts[1..], t);
      assert (texts + [t])[1..] == texts[1..] + [t];
    }
  }

  /** What the side buffer is left with: the text, or its beginning and the marker, or the marker's beginning. */
  predicate SideText(t: string, cap: nat, marker: string, side: string) {
    if cap == 0 || |t| < cap then side == t
    else if |marker| < cap then side == t[..cap - 1 - |marker|] + marker
    else side == marker[..cap - 1]
  }

  /** A spec with widths shows at least the least and at most the greatest number of characters of the side text. */
  lemma PieceMeans(spec: Spec, scene: Scene, t: string, side: string)
    requires SpecText(spec, scene.info, scene.pid, scene.stamp, scene.calendar) == Some(t)
    requires SideText(t, scene.preCap, scene.preMarker, side)
    ensures spec.width == Direct ==> Piece(spec, scene) == Some(t)
    ensures spec.width.Reformat? ==>
            var Reformat(left, least, greatest) := spec.width;
            var kept := if 0 < greatest < |side| then greatest else |side|;
            && Piece(spec, scene).Some?
            && var r := Piece(spec, scene).value;
               && |r| == (if kept < least then least else kept)
               && (left ==> r[..kept] == side[..kept] && forall i :: kept <= i < |r| ==> r[i] == ' ')
               && (!left ==> r[|r| - kept..] == side[..kept] && forall i :: 0 <= i < |r| - kept ==> r[i] == ' ')
  {
    CutMeans(t, scene.preCap, scene.preMarker);
    if spec.width.Reformat? {
      AdjustedMeans(side, spec.width.leftAdjust, spec.width.minWidth, spec.width.maxWidth);
    }
  }

  /** One piece for every spec, in order. */
  lemma {:induction false} PiecesMean(specs: seq<Spec>, scene: Scene)
    ensures |Pieces(specs, scene)| == |specs|
    ensures forall i :: 0 <= i < |specs| ==>
        Pieces(specs, scene)[i] == if Piece(specs[i], scene).Some? then Piece(specs[i], scene).value else ""
  {
    if specs != [] {
      PiecesMean(specs[..|specs| - 1], scene);
    }
  }

  /** Specs that do not ask for the time or the pid do not depend on them. */
  lemma PieceDependsOn(spec: Spec, a: Scene, b: Scene)
    requires a == b.(pid := a.pid, stamp := a.stamp)
    requires (UsesClock(spec.kind) ==> a.stamp == b.stamp) && (spec.kind.Pid? ==> a.pid == b.pid)
    ensures Piece(spec, a) == Piece(spec, b)
  {
  }

  lemma {:induction false} PidStays(specs: seq<Spec>, pid: nat, self: nat)
    requires pid != 0
    ensures FirstPid(specs, pid, self) == pid
  {
    if specs != [] {
      PidStays(specs[1..], pid, self);
    }
  }

  /** After a spec the event's time and pid are already final for every later use. */
  lemma FinalAfter(specs: seq<Spec>, clock: seq<Stamp>, i: nat, stamp: Stamp, pid: nat, self: nat)
    requires |clock| == |specs| && i < |specs| && clock[i].sec != 0 && self != 0
    ensures var k := specs[i].kind;
            var stamp', pid' := StampAfter(k, stamp, clock[i]), PidAfter(k, pid, self);
            && FirstReading(specs[i..], clock[i..], stamp) == FirstReading(specs[i + 1..], clock[i + 1..], stamp')
            && FirstPid(specs[i..], pid, self) == FirstPid(specs[i + 1..], pid', self)
            && (UsesClock(k) ==> stamp' == FirstReading(specs[i..], clock[i..], stamp))
            && (k.Pid? ==> pid' == FirstPid(specs[i..], pid, self))
  {
    assert specs[i..][1..] == specs[i + 1..] && clock[i..][1..] == clock[i + 1..];
    if PidAfter(specs[i].kind, pid, self) != 0 {
      PidStays(specs[i + 1..], PidAfter(specs[i].kind, pid, self), self);
    }
  }

  // ---------------------------------------------------------------- one time and one pid

  predicate ReadsClock(clock: seq<Stamp>) {
    forall i :: 0 <= i < |clock| ==> clock[i].sec != 0 && clock[i].usec < 1_000_000
  }

  /** A time once read is kept. */
  predicate Stays(before: Stamp, after: Stamp) {
    before.sec != 0 ==> after == before
  }

  predicate NoClock(specs: seq<Spec>) {
    forall i :: 0 <= i < |specs| ==> !UsesClock(specs[i].kind)
  }

  /** The text of a format that is written: all of it or nothing. */
  function Delivered(specs: seq<Spec>, scene: Scene, cap: nat): (message: Option<string>) {
    if Renderable(specs, scene) && !Overflows(Rendered(specs, scene), cap) then Some(Rendered(specs, scene)) else None
  }

  /** A message is written exactly when every spec has a text and all of them fit. */
  lemma DeliveredMeans(specs: seq<Spec>, scene: Scene, cap: nat)
    ensures var message, text := Delivered(specs, scene, cap), Concat(Pieces(specs, scene));
            && (message.Some? <==>
                  (cap == 0 || |text| < cap) && forall i :: 0 <= i < |specs| ==> Piece(specs[i], scene).Some?)
            && (message.Some? ==> message.value == text)
  {
    RenderedIsConcatenation(specs, scene);
  }

  /** The time of an event is read for the first spec that asks for it. */
  lemma {:induction false} FirstReadingMeans(specs: seq<Spec>, clock: seq<Stamp>, stamp: Stamp)
    requires |clock| == |specs| && ReadsClock(clock)
    ensures stamp.sec != 0 || NoClock(specs) ==> FirstReading(specs, clock, stamp) == stamp
    ensures stamp.sec == 0 ==> forall i :: 0 <= i < |specs| && UsesClock(specs[i].kind) && NoClock(specs[..i]) ==>
        FirstReading(specs, clock, stamp) == clock[i]
    decreases |specs|
  {
    if specs != [] && stamp.sec == 0 {
      FirstReadingMeans(specs[1..], clock[1..], StampAfter(specs[0].kind, stamp, clock[0]));
      assert forall i :: 0 < i < |specs| ==> specs[i] == specs[1..][i - 1] && clock[i] == clock[1..][i - 1];
      forall i | 0 <= i < |specs| && UsesClock(specs[i].kind) && NoClock(specs[..i])
        ensures FirstReading(specs, clock, stamp) == clock[i]
      {
        if i > 0 {
          assert specs[..i][0] == specs[0] && specs[..i][1..] == specs[1..][..i - 1];
          assert NoClock(specs[1..][..i - 1]);
        }
      }
    }
  }

  /**
   One output of a log call: the event's time before and after it, and what is written. The message is the whole
   text at the time that the output finds or reads, or nothing if that fails or is too long.
   */
  predicate Follows(message: Option<string>, specs: seq<Spec>, clock: seq<Stamp>, before: Stamp, after: Stamp,
                    scene: Scene, cap: nat)
    requires |clock| == |specs|
  {
    var read := FirstReading(specs, clock, before);
    && message == Delivered(specs, scene.(stamp := read), cap)
    && (after == before || after == read)
    && (message.Some? ==> after == read)
  }

  /** The clock readings that the specs of the outputs would get. */
  predicate Clocked(outputs: seq<seq<Spec>>, clocks: seq<seq<Stamp>>) {
    |clocks| == |outputs| && forall k :: 0 <= k < |clocks| ==> |clocks[k]| == |outputs[k]| && ReadsClock(clocks[k])
  }

  /** The outputs so far, with the event's time between them. */
  predicate Logged(messages: seq<Option<string>>, outputs: seq<seq<Spec>>, clocks: seq<seq<Stamp>>,
                   stamps: seq<Stamp>, scene: Scene, cap: nat)
    requires Clocked(outputs, clocks)
  {
    && |messages| <= |outputs| && |stamps| == |messages| + 1
    && forall k :: 0 <= k < |messages| ==>
         Follows(messages[k], outputs[k], clocks[k], stamps[k], stamps[k + 1], scene, cap)
  }

  lemma {:induction false} SameRendering(specs: seq<Spec>, a: Scene, b: Scene)
    requires forall i :: 0 <= i < |specs| ==> Piece(specs[i], a) == Piece(specs[i], b)
    ensures Rendered(specs, a) == Rendered(specs, b) && (Renderable(specs, a) <==> Renderable(specs, b))
  {
    if specs != [] {
      SameRendering(specs[..|specs| - 1], a, b);
    }
  }

  /** Scenes that differ in the pid or the time render the same where no spec asks for what differs. */
  lemma SceneMatters(specs: seq<Spec>, a: Scene, b: Scene, cap: nat)
    requires a == b.(pid := a.pid, stamp := a.stamp)
    requires a.stamp == b.stamp || NoClock(specs)
    requires a.pid == b.pid || forall i :: 0 <= i < |specs| ==> !specs[i].kind.Pid?
    ensures Delivered(specs, a, cap) == Delivered(specs, b, cap)
  {
    forall i | 0 <= i < |specs|
      ensures Piece(specs[i], a) == Piece(specs[i], b)
    {
      PieceDependsOn(specs[i], a, b);
    }
    SameRendering(specs, a, b);
  }

  lemma {:induction false} ReadsOnce(specs: seq<Spec>, clock: seq<Stamp>, stamp: Stamp, pid: nat, self: nat)
    requires |clock| == |specs| && ReadsClock(clock) && self != 0 && (pid == 0 || pid == self)
    ensures FirstReading(specs, clock, stamp).sec != 0 || NoClock(specs)
    ensures FirstPid(specs, pid, self) == self || forall i :: 0 <= i < |specs| ==> !specs[i].kind.Pid?
    decreases |specs|
  {
    if specs != [] {
      var k := specs[0].kind;
      assert forall i :: 0 < i < |specs| ==> specs[i] == specs[1..][i - 1];
      assert ReadsClock(clock[1..]);
      ReadsOnce(specs[1..], clock[1..], StampAfter(k, stamp, clock[0]), PidAfter(k, pid, self), self);
      if k.Pid? { PidStays(specs[1..], self, self); }
    }
  }

  /** The pid that an output finds or reads is the process's own, wherever it matters. */
  lemma OwnPid(specs: seq<Spec>, clock: seq<Stamp>, pid: nat, stamp: Stamp, self: nat, scene: Scene, cap: nat)
    requires |clock| == |specs| && ReadsClock(clock) && self != 0 && (pid == 0 || pid == self)
    ensures var read := FirstReading(specs, clock, stamp);
            Delivered(specs, scene.(pid := FirstPid(specs, pid, self), stamp := read), cap)
            == Delivered(specs, scene.(pid := self, stamp := read), cap)
  {
    var own := scene.(pid := FirstPid(specs, pid, self), stamp := FirstReading(specs, clock, stamp));
    ReadsOnce(specs, clock, stamp, pid, self);
    SceneMatters(specs, own, own.(pid := self), cap);
  }

  lemma {:induction false} StampStays(messages: seq<Option<string>>, outputs: seq<seq<Spec>>, clocks: seq<seq<Stamp>>,
                                      stamps: seq<Stamp>, scene: Scene, cap: nat, k: nat)
    requires Clocked(outputs, clocks) && Logged(messages, outputs, clocks, stamps, scene, cap) && k <= |messages|
    ensures Stays(stamps[k], stamps[|messages|])
    decreases |messages| - k
  {
    if k < |messages| {
      assert Follows(messages[k], outputs[k], clocks[k], stamps[k], stamps[k + 1], scene, cap);
      StampStays(messages, outputs, clocks, stamps, scene, cap, k + 1);
    }
  }

  /** All messages that are written show one time, the event's at the end of the call. */
  lemma WrittenShowOneTime(messages: seq<Option<string>>, outputs: seq<seq<Spec>>, clocks: seq<seq<Stamp>>,
                           stamps: seq<Stamp>, scene: Scene, cap: nat, k: nat)
    requires Clocked(outputs, clocks) && Logged(messages, outputs, clocks, stamps, scene, cap)
    requires k < |messages| && messages[k].Some?
    ensures messages[k] == Delivered(outputs[k], scene.(stamp := stamps[|messages|]), cap)
  {
    var read := FirstReading(outputs[k], clocks[k], stamps[k]);
    assert Follows(messages[k], outputs[k], clocks[k], stamps[k], stamps[k + 1], scene, cap);
    StampStays(messages, outputs, clocks, stamps, scene, cap, k + 1);
    ReadsOnce(outputs[k], clocks[k], stamps[k], 1, 1);
    SceneMatters(outputs[k], scene.(stamp := read), scene.(stamp := stamps[|messages|]), cap);
  }

  class Thread {
    var version: nat
    var event: Event
    var preMsgBuf: LogBuffer
    var msgBuf: LogBuffer

    ghost predicate Valid(fmts: seq<string>)
      reads this, event, preMsgBuf, msgBuf, preMsgBuf.store, msgBuf.store
    {
      && event.Valid(fmts) && preMsgBuf.Valid() && msgBuf.Valid()
      && preMsgBuf != msgBuf && preMsgBuf.store != msgBuf.store
    }

    constructor (version: nat, event: Event, preMsgBuf: LogBuffer, msgBuf: LogBuffer)
      ensures this.version == version && this.event == event
      ensures this.preMsgBuf == preMsgBuf && this.msgBuf == msgBuf
    {
      this.version, this.event, this.preMsgBuf, this.msgBuf := version, event, preMsgBuf, msgBuf;
    }

    ghost function SceneWith(pid: nat, stamp: Stamp): (scene: Scene)
      reads this, event, preMsgBuf
    {
      Scene(event.info, pid, stamp, event.calendar, preMsgBuf.sizeMax, preMsgBuf.marker)
    }

    /** gen_msg of a spec: direct, or through the side buffer. */
    method GenSpec(spec: Spec, now: Stamp, self: nat, ghost fmts: seq<string>) returns (rc: int)
      requires Valid(fmts)
      requires spec.kind.Time? ==> spec.kind.cacheIndex < |fmts| && fmts[spec.kind.cacheIndex] == spec.kind.fmt
      requires now.sec != 0 && now.usec < 1_000_000 && self != 0
      modifies event, preMsgBuf, preMsgBuf.store, msgBuf, msgBuf.store
      ensures Valid(fmts) && event.info == old(event.info)
      ensures preMsgBuf.store == old(preMsgBuf.store) || fresh(preMsgBuf.store)
      ensures msgBuf.store == old(msgBuf.store) || fresh(msgBuf.store)
      ensures event.stamp == StampAfter(spec.kind, old(event.stamp), now)
      ensures event.pid == PidAfter(spec.kind, old(event.pid), self)
      ensures var piece := Piece(spec, SceneWith(event.pid, event.stamp));
              && (piece.Some? ==> msgBuf.Wrote(piece.value, rc))
              && (piece.None? ==> rc == -1 && msgBuf.Text() == old(msgBuf.Text()))
    {
      match spec.width {
        case Direct =>
          rc := WriteSpec(event, spec, msgBuf, now, self, fmts);
        case Reformat(left, least, greatest) =>
          preMsgBuf.Restart();
          rc := WriteSpec(event, spec, preMsgBuf, now, self, fmts);
          if rc < 0 {
            return -1;
          }
          ghost var text := SpecText(spec, event.info, event.pid, event.stamp, event.calendar).value;
          assert "" + text == text;
          rc := msgBuf.AdjustAppend(preMsgBuf.store[..preMsgBuf.tail], left, least, greatest);
      }
    }

    /** The message so far, and the scene that all of its specs share. */
    ghost predicate Underway(specs: seq<Spec>, clock: seq<Stamp>, self: nat, i: nat, scene: Scene, fmts: seq<string>)
      requires |clock| == |specs| && i <= |specs|
      reads this, event, preMsgBuf, msgBuf, preMsgBuf.store, msgBuf.store
    {
      && Valid(fmts)
      && scene == SceneWith(FirstPid(specs[i..], event.pid, self), FirstReading(specs[i..], clock[i..], event.stamp))
      && msgBuf.Text() == Rendered(specs[..i], scene)
    }

    method GenNext(specs: seq<Spec>, clock: seq<Stamp>, self: nat, i: nat, ghost scene: Scene, ghost fmts: seq<string>)
      returns (rc: int)
      requires |clock| == |specs| && i < |specs| && Underway(specs, clock, self, i, scene, fmts)
      requires Indexed(specs, 0, fmts) && self != 0 && clock[i].sec != 0 && clock[i].usec < 1_000_000
      modifies event, preMsgBuf, preMsgBuf.store, msgBuf, msgBuf.store
      ensures preMsgBuf.store == old(preMsgBuf.store) || fresh(preMsgBuf.store)
      ensures msgBuf.store == old(msgBuf.store) || fresh(msgBuf.store)
      ensures Valid(fmts) && event.info == old(event.info)
      ensures event.stamp == old(event.stamp) || event.stamp == scene.stamp
      ensures event.pid == PidAfter(specs[i].kind, old(event.pid), self)
      ensures rc == 0 ==> Piece(specs[i], scene).Some? && Underway(specs, clock, self, i + 1, scene, fmts)
      ensures rc != 0 && Piece(specs[i], scene).Some? ==>
          && Overflows(Rendered(specs, scene), msgBuf.sizeMax)
          && msgBuf.Text() == Cut(Rendered(specs, scene), msgBuf.sizeMax, msgBuf.marker)
    {
      FinalAfter(specs, clock, i, event.stamp, event.pid, self);
      rc := GenSpec(specs[i], clock[i], self, fmts);
      PieceDependsOn(specs[i], SceneWith(event.pid, event.stamp), scene);
      if Piece(specs[i], scene).Some? {
        PieceWritten(specs, i, scene, msgBuf.Text(), rc, msgBuf.sizeMax, msgBuf.marker);
      }
    }

    /**
     zlog_format_gen_msg. Every spec sees the same time and pid. The buffer ends up with one write of
     all pieces; a cut text or a failed writer is reported as -1. A time or pid once read stays.
     */
    method GenMsg(specs: seq<Spec>, clock: seq<Stamp>, self: nat, ghost fmts: seq<string>) returns (rc: int)
      requires Valid(fmts) && Indexed(specs, 0, fmts) && |clock| == |specs| && self != 0
      requires ReadsClock(clock)
      modifies event, preMsgBuf, preMsgBuf.store, msgBuf, msgBuf.store
      ensures Valid(fmts) && event.info == old(event.info)
      ensures event.stamp == old(event.stamp) || event.stamp == old(FirstReading(specs, clock, event.stamp))
      ensures event.pid == old(event.pid) || (old(event.pid) == 0 && event.pid == self)
      ensures rc == 0 ==>
          && event.stamp == old(FirstReading(specs, clock, event.stamp))
          && event.pid == old(FirstPid(specs, event.pid, self))
      ensures preMsgBuf.store == old(preMsgBuf.store) || fresh(preMsgBuf.store)
      ensures msgBuf.store == old(msgBuf.store) || fresh(msgBuf.store)
      ensures var scene := old(SceneWith(FirstPid(specs, event.pid, self), FirstReading(specs, clock, event.stamp)));
              if Renderable(specs, scene) then
                && msgBuf.Text() == Cut(Rendered(specs, scene), msgBuf.sizeMax, msgBuf.marker)
                && rc == (if Overflows(Rendered(specs, scene), msgBuf.sizeMax) then -1 else 0)
              else rc == -1
    {
      ghost var scene := SceneWith(FirstPid(specs, event.pid, self), FirstReading(specs, clock, event.stamp));
      msgBuf.Restart();
      assert specs[0..] == specs && clock[0..] == clock && specs[..0] == [];
      for i := 0 to |specs|
        invariant preMsgBuf.store == old(preMsgBuf.store) || fresh(preMsgBuf.store)
        invariant msgBuf.store == old(msgBuf.store) || fresh(msgBuf.store)
        invariant Underway(specs, clock, self, i, scene, fmts)
        invariant event.info == old(event.info)
        invariant event.stamp == old(event.stamp) || event.stamp == scene.stamp
        invariant event.pid == old(event.pid) || (old(event.pid) == 0 && event.pid == self)
        invariant forall j :: 0 <= j < i ==> Piece(specs[j], scene).Some?
      {
        rc := GenNext(specs, clock, self, i, scene, fmts);
        if rc != 0 {
          return -1;
        }
      }
      assert specs[..|specs|] == specs;
      return 0;
    }

    /** What an output function does with a format: a message that fails or had to be cut is not written. */
    method Output(specs: seq<Spec>, clock: seq<Stamp>, self: nat, ghost fmts: seq<string>)
      returns (message: Option<string>)
      requires Valid(fmts) && Indexed(specs, 0, fmts) && |clock| == |specs| && self != 0
      requires ReadsClock(clock)
      modifies event, preMsgBuf, preMsgBuf.store, msgBuf, msgBuf.store
      ensures Valid(fmts) && event.info == old(event.info)
      ensures event.stamp == old(event.stamp) || event.stamp == old(FirstReading(specs, clock, event.stamp))
      ensures event.pid == old(event.pid) || (old(event.pid) == 0 && event.pid == self)
      ensures message.Some? ==>
          && event.stamp == old(FirstReading(specs, clock, event.stamp))
          && event.pid == old(FirstPid(specs, event.pid, self))
      ensures preMsgBuf.store == old(preMsgBuf.store) || fresh(preMsgBuf.store)
      ensures msgBuf.store == old(msgBuf.store) || fresh(msgBuf.store)
      ensures var scene := old(SceneWith(FirstPid(specs, event.pid, self), FirstReading(specs, clock, event.stamp)));
              message == Delivered(specs, scene, msgBuf.sizeMax)
    {
      var rc := GenMsg(specs, clock, self, fmts);
      message := if rc != 0 then None else Some(msgBuf.store[..msgBuf.tail]);
    }

    /** The same, with the process's own pid. */
    method OutputNext(specs: seq<Spec>, clock: seq<Stamp>, self: nat, ghost fmts: seq<string>)
      returns (message: Option<string>)
      requires Valid(fmts) && Indexed(specs, 0, fmts) && |clock| == |specs| && self != 0
      requires ReadsClock(clock) && (event.pid == 0 || event.pid == self)
      modifies event, preMsgBuf, preMsgBuf.store, msgBuf, msgBuf.store
      ensures Valid(fmts) && event.info == old(event.info)
      ensures event.pid == 0 || event.pid == self
      ensures preMsgBuf.store == old(preMsgBuf.store) || fresh(preMsgBuf.store)
      ensures msgBuf.store == old(msgBuf.store) || fresh(msgBuf.store)
      ensures var scene := SceneWith(self, Stamp(0, 0));
              Follows(message, specs, clock, old(event.stamp), event.stamp, scene, msgBuf.sizeMax)
    {
      OwnPid(specs, clock, event.pid, event.stamp, self, SceneWith(self, Stamp(0, 0)), msgBuf.sizeMax);
      message := Output(specs, clock, self, fmts);
    }

    /** zlog_category_output over the formats of the outputs, one after another. */
    method OutputAll(outputs: seq<seq<Spec>>, clocks: seq<seq<Stamp>>, self: nat, ghost fmts: seq<string>)
      returns (messages: seq<Option<string>>, ghost stamps: seq<Stamp>)
      requires Valid(fmts) && self != 0 && (event.pid == 0 || event.pid == self) && Clocked(outputs, clocks)
      requires forall k :: 0 <= k < |outputs| ==> Indexed(outputs[k], 0, fmts)
      modifies event, preMsgBuf, preMsgBuf.store, msgBuf, msgBuf.store
      ensures Valid(fmts) && event.info == old(event.info) && |messages| == |outputs|
      ensures Logged(messages, outputs, clocks, stamps, SceneWith(self, Stamp(0, 0)), msgBuf.sizeMax)
      ensures stamps[0] == old(event.stamp)
    {
      messages, stamps := [], [event.stamp];
      for i := 0 to |outputs|
        invariant preMsgBuf.store == old(preMsgBuf.store) || fresh(preMsgBuf.store)
        invariant msgBuf.store == old(msgBuf.store) || fresh(msgBuf.store)
        invariant Valid(fmts) && event.info == old(event.info) && |messages| == i
        invariant event.pid == 0 || event.pid == self
        invariant Logged(messages, outputs, clocks, stamps, SceneWith(self, Stamp(0, 0)), msgBuf.sizeMax)
        invariant stamps[0] == old(event.stamp) && stamps[i] == event.stamp
      {
        var message := OutputNext(outputs[i], clocks[i], self, fmts);
        messages, stamps := messages + [message], stamps + [event.stamp];
      }
    }
  }
}
