/** The pattern compiler: a pattern is cut into specs, and time specs are numbered for their caches. */
module Pattern {
  import opened Option
  import opened Text
  import opened LogBuffer

  const DEFAULT_TIME_FMT := "%F %T"
  const SIZE_T := 0x1_0000_0000_0000_0000

  datatype Kind =
    | ConstText
    | Time(fmt: string, cacheIndex: nat)
    | Mdc(key: string)
    | Millis | Micros
    | CategoryName | SourceFile | SourceFileNeat | HostName | SourceLine | UserMessage
    | NewLine | Pid | SourceFunction | LevelLower | LevelUpper | TidHex | TidLong | Percent

  /** A spec is written directly, or to a side buffer and then adjusted to its width. */
  datatype Width = Direct | Reformat(leftAdjust: bool, minWidth: nat, maxWidth: nat)

  datatype Spec = Spec(text: string, kind: Kind, width: Width)

  datatype Parsed = Parsed(spec: Spec, timeCount: nat)

  // ---------------------------------------------------------------- C string scanning

  predicate IsWidthChar(c: char) {
    c == '.' || c == '-' || '0' <= c <= '9'
  }

  /** The length of the leading run of width characters, as scanned by %[.0-9-]. */
  function WidthRun(s: string): (n: nat)
    ensures n <= |s|
    ensures forall i :: 0 <= i < n ==> IsWidthChar(s[i])
    ensures n < |s| ==> !IsWidthChar(s[n])
  {
    if s == "" || !IsWidthChar(s[0]) then 0 else 1 + WidthRun(s[1..])
  }

  /** strchr. */
  function IndexOf(s: string, c: char): (i: Option<nat>)
    ensures i.Some? ==> i.value < |s| && s[i.value] == c && forall j :: 0 <= j < i.value ==> s[j] != c
    ensures i.None? ==> c !in s
  {
    if s == "" then None
    else if s[0] == c then Some(0)
    else match IndexOf(s[1..], c)
      case None => None
      case Some(i) => Some(i + 1)
  }

  /** sscanf's %ld on a text of digits, dots and minus signs; no number reads as 0. */
  function ScanLong(s: string): (v: int) {
    var number := if s != "" && s[0] == '-' then s[1..] else s;
    var v: int := Value(number[..LeadingDigits(number)], 10);
    if number == s then v else -v
  }

  /** The conversion of a long to size_t. */
  function SizeT(v: int): (n: nat)
    ensures 0 <= v < SIZE_T ==> n == v
  {
    v % SIZE_T
  }

  /** The least and the greatest width, written with a dot between them. */
  function ParseWidths(left: bool, p: string): (w: Width)
    ensures w.Reformat?
  {
    var greatest := match IndexOf(p, '.') case Some(i) => ScanLong(p[i + 1..]) case None => 0;
    Reformat(left, SizeT(ScanLong(p)), SizeT(greatest))
  }

  /** -12.35: left adjustment, least width, greatest width; negative widths wrap into size_t. */
  function ParsePrintFmt(s: string): (w: Width)
    ensures w.Reformat?
  {
    if s != "" && s[0] == '-' then ParseWidths(true, s[1..]) else ParseWidths(false, s)
  }

  // ---------------------------------------------------------------- one spec

  /** The conversion after the width: its length and kind. */
  datatype Conversion = Conversion(length: nat, kind: Kind)

  function ParenthesisedText(q: string): (text: Option<string>)
    ensures text.Some? ==> 2 + |text.value| < |q| && text.value == q[2..2 + |text.value|] && q[2 + |text.value|] == ')'
  {
    if |q| < 2 then None
    else match IndexOf(q[2..], ')')
      case Some(k) => Some(q[2..2 + k])
      case None => None
  }

  function TimeConversion(q: string, timeCount: nat): (c: Option<Conversion>)
    requires q != ""
    ensures c.Some? ==> 0 < c.value.length <= |q| && c.value.kind.Time? && c.value.kind.cacheIndex == timeCount
  {
    if |q| < 2 || q[1] != '(' then Some(Conversion(1, Time(DEFAULT_TIME_FMT, timeCount)))
    else if |q| >= 3 && q[2] == ')' then Some(Conversion(3, Time(DEFAULT_TIME_FMT, timeCount)))
    else match ParenthesisedText(q)
      case Some(fmt) => Some(Conversion(|fmt| + 3, Time(fmt, timeCount)))
      case None => None
  }

  function MdcConversion(q: string): (c: Option<Conversion>)
    requires q != ""
    ensures c.Some? ==> 0 < c.value.length <= |q| && c.value.kind.Mdc?
  {
    if |q| < 2 || q[1] != '(' then None
    else match ParenthesisedText(q)
      case Some(key) => Some(Conversion(|key| + 3, Mdc(key)))
      case None => None
  }

  function LetterKind(c: char, timeCount: nat): (k: Option<Kind>) {
    match c
    case 'c' => Some(CategoryName)
    case 'D' => Some(Time(DEFAULT_TIME_FMT, timeCount))
    case 'F' => Some(SourceFile)
    case 'f' => Some(SourceFileNeat)
    case 'H' => Some(HostName)
    case 'L' => Some(SourceLine)
    case 'm' => Some(UserMessage)
    case 'n' => Some(NewLine)
    case 'p' => Some(Pid)
    case 'U' => Some(SourceFunction)
    case 'v' => Some(LevelLower)
    case 'V' => Some(LevelUpper)
    case 't' => Some(TidHex)
    case 'T' => Some(TidLong)
    case '%' => Some(Percent)
    case _ => None
  }

  function ParseConversion(q: string, timeCount: nat): (c: Option<Conversion>)
    ensures c.Some? ==> 0 < c.value.length <= |q|
    ensures c.Some? && c.value.kind.Time? ==> c.value.kind.cacheIndex == timeCount
    ensures c.Some? ==> !c.value.kind.ConstText?
  {
    if q == "" then None
    else if q[0] == 'd' then TimeConversion(q, timeCount)
    else if q[0] == 'M' then MdcConversion(q)
    else if |q| >= 2 && q[0] == 'm' && q[1] == 's' then Some(Conversion(2, Millis))
    else if |q| >= 2 && q[0] == 'u' && q[1] == 's' then Some(Conversion(2, Micros))
    else match LetterKind(q[0], timeCount)
      case Some(k) => Some(Conversion(1, k))
      case None => None
  }

  function WidthOf(run: string): (w: Width) {
    if run == "" then Direct else ParsePrintFmt(run)
  }

  /** A time spec takes the next cache slot; other specs take none. */
  predicate TakesSlot(p: Parsed, timeCount: nat) {
    if p.spec.kind.Time? then p.spec.kind.cacheIndex == timeCount && p.timeCount == timeCount + 1
    else p.timeCount == timeCount
  }

  /** zlog_spec_new at the start of the remaining pattern; None is a pattern error. */
  function NextSpec(rest: string, timeCount: nat): (r: Option<Parsed>)
    requires rest != ""
    ensures r.Some? ==> r.value.spec.text != "" && r.value.spec.text <= rest && TakesSlot(r.value, timeCount)
  {
    if rest[0] == '%' then
      var run := WidthRun(rest[1..]);
      match ParseConversion(rest[1 + run..], timeCount)
      case None => None
      case Some(Conversion(length, kind)) =>
        var count := if kind.Time? then timeCount + 1 else timeCount;
        Some(Parsed(Spec(rest[..1 + run + length], kind, WidthOf(rest[1..1 + run])), count))
    else
      match IndexOf(rest, '%')
      case Some(n) => Some(Parsed(Spec(rest[..n], ConstText, Direct), timeCount))
      case None => Some(Parsed(Spec(rest, ConstText, Direct), timeCount))
  }

  // ---------------------------------------------------------------- a whole pattern

  datatype Compiled = Compiled(specs: seq<Spec>, timeCount: nat)

  function Compile(rest: string, timeCount: nat): (r: Option<Compiled>)
    decreases |rest|
  {
    if rest == "" then Some(Compiled([], timeCount))
    else match NextSpec(rest, timeCount)
      case None => None
      case Some(Parsed(spec, count)) =>
        Prepend([spec], Compile(rest[|spec.text|..], count))
  }

  function Prepend(front: seq<Spec>, r: Option<Compiled>): (s: Option<Compiled>) {
    match r
    case None => None
    case Some(Compiled(specs, count)) => Some(Compiled(front + specs, count))
  }

  lemma PrependTwice(a: seq<Spec>, b: seq<Spec>, r: Option<Compiled>)
    ensures Prepend(a, Prepend(b, r)) == Prepend(a + b, r) && Prepend([], r) == r
  {
    if r.Some? {
      assert a + (b + r.value.specs) == a + b + r.value.specs && [] + r.value.specs == r.value.specs;
    }
  }

  /** The loop of zlog_format_new: the cursor moves from spec to spec until the pattern is used up. */
  method CompilePattern(pattern: string, timeCount: nat) returns (r: Option<Compiled>)
    ensures r == Compile(pattern, timeCount)
  {
    var p, count := 0, timeCount;
    var specs: seq<Spec> := [];
    assert pattern[0..] == pattern;
    PrependTwice([], [], Compile(pattern, timeCount));
    while p < |pattern|
      invariant 0 <= p <= |pattern|
      invariant Compile(pattern, timeCount) == Prepend(specs, Compile(pattern[p..], count))
    {
      var next := NextSpec(pattern[p..], count);
      if next.None? {
        return None;
      }
      var spec := next.value.spec;
      assert pattern[p..][|spec.text|..] == pattern[p + |spec.text|..];
      PrependTwice(specs, [spec], Compile(pattern[p + |spec.text|..], next.value.timeCount));
      specs := specs + [spec];
      p, count := p + |spec.text|, next.value.timeCount;
    }
    assert pattern[p..] == "" && specs + [] == specs;
    return Some(Compiled(specs, count));
  }

  function Texts(specs: seq<Spec>): (texts: seq<string>) {
    if specs == [] then [] else [specs[0].text] + Texts(specs[1..])
  }

  /** The slices of an accepted pattern are non-empty and tile it exactly. */
  lemma {:induction false} SpecsTilePattern(pattern: string, timeCount: nat)
    requires Compile(pattern, timeCount).Some?
    ensures var specs := Compile(pattern, timeCount).value.specs;
            Concat(Texts(specs)) == pattern && forall i :: 0 <= i < |specs| ==> specs[i].text != ""
    decreases |pattern|
  {
    if pattern != "" {
      var first := NextSpec(pattern, timeCount).value;
      var tail := pattern[|first.spec.text|..];
      SpecsTilePattern(tail, first.timeCount);
      var specs := Compile(pattern, timeCount).value.specs;
      assert specs[1..] == Compile(tail, first.timeCount).value.specs;
      assert pattern == first.spec.text + tail;
    }
  }

  // ---------------------------------------------------------------- time caches

  /** The formats of the time specs, in order. */
  function TimeFormats(specs: seq<Spec>): (fmts: seq<string>) {
    if specs == [] then []
    else (if specs[0].kind.Time? then [specs[0].kind.fmt] else []) + TimeFormats(specs[1..])
  }

  /** Every time spec has a cache slot from the base on, and the slot belongs to its format. */
  ghost predicate Indexed(specs: seq<Spec>, base: nat, fmts: seq<string>) {
    forall i :: 0 <= i < |specs| && specs[i].kind.Time? ==>
      base <= specs[i].kind.cacheIndex < |fmts| && fmts[specs[i].kind.cacheIndex] == specs[i].kind.fmt
  }

  ghost predicate DistinctSlots(specs: seq<Spec>) {
    forall i, j :: 0 <= i < j < |specs| && specs[i].kind.Time? && specs[j].kind.Time? ==>
      specs[i].kind.cacheIndex < specs[j].kind.cacheIndex
  }

  /** Specs numbered from |before| on, in order, without gaps. */
  ghost predicate Numbered(c: Compiled, before: seq<string>) {
    && c.timeCount == |before| + |TimeFormats(c.specs)|
    && Indexed(c.specs, |before|, before + TimeFormats(c.specs))
    && DistinctSlots(c.specs)
  }

  lemma {:induction false} TimeFormatsAppend(a: seq<Spec>, b: seq<Spec>)
    ensures TimeFormats(a + b) == TimeFormats(a) + TimeFormats(b)
  {
    if a == [] {
      assert a + b == b;
    } else {
      TimeFormatsAppend(a[1..], b);
      assert (a + b)[1..] == a[1..] + b && (a + b)[0] == a[0];
      var first := if a[0].kind.Time? then [a[0].kind.fmt] else [];
      assert first + (TimeFormats(a[1..]) + TimeFormats(b)) == (first + TimeFormats(a[1..])) + TimeFormats(b);
    }
  }

  lemma NumberedAppend(a: Compiled, b: Compiled, before: seq<string>)
    requires Numbered(a, before) && Numbered(b, before + TimeFormats(a.specs))
    ensures Numbered(Compiled(a.specs + b.specs, b.timeCount), before)
  {
    TimeFormatsAppend(a.specs, b.specs);
    var now := before + TimeFormats(a.specs);
    var fmts := before + TimeFormats(a.specs + b.specs);
    assert fmts == now + TimeFormats(b.specs);
    assert |now| == a.timeCount;
    forall i | 0 <= i < |a.specs| && a.specs[i].kind.Time?
      ensures |before| <= a.specs[i].kind.cacheIndex < |now| && fmts[a.specs[i].kind.cacheIndex] == a.specs[i].kind.fmt
    {
    }
  }

  lemma OneSlot(first: Parsed, before: seq<string>)
    requires TakesSlot(first, |before|)
    ensures |before + TimeFormats([first.spec])| == first.timeCount
    ensures Numbered(Compiled([first.spec], first.timeCount), before)
  {
    assert TimeFormats([first.spec]) == if first.spec.kind.Time? then [first.spec.kind.fmt] else [];
  }

  lemma NumberedCons(first: Parsed, rest: Compiled, before: seq<string>)
    requires TakesSlot(first, |before|)
    requires Numbered(rest, before + TimeFormats([first.spec]))
    ensures Numbered(Compiled([first.spec] + rest.specs, rest.timeCount), before)
  {
    OneSlot(first, before);
    NumberedAppend(Compiled([first.spec], first.timeCount), rest, before);
  }

  /** Within a pattern the slots are consecutive from the count so far. */
  lemma {:induction false} SlotsAreConsecutive(pattern: string, before: seq<string>, timeCount: nat)
    requires timeCount == |before| && Compile(pattern, timeCount).Some?
    ensures Numbered(Compile(pattern, timeCount).value, before)
    decreases |pattern|
  {
    if pattern != "" {
      var first := NextSpec(pattern, timeCount).value;
      var now := before + TimeFormats([first.spec]);
      OneSlot(first, before);
      var tail := pattern[|first.spec.text|..];
      SlotsAreConsecutive(tail, now, first.timeCount);
      NumberedCons(first, Compile(tail, first.timeCount).value, before);
    }
  }

  // ---------------------------------------------------------------- a configuration

  /**
   The formats of a configuration: each is its own pattern, compiled from the count that the earlier patterns
   left, and its time formats are the next ones of the configuration's.
   */
  ghost predicate Loaded(patterns: seq<string>, formats: seq<seq<Spec>>, counts: seq<nat>, fmts: seq<string>) {
    && |formats| == |patterns| && |counts| == |patterns| + 1 && counts[0] == 0 && counts[|patterns|] == |fmts|
    && forall k :: 0 <= k < |patterns| ==> LoadedAt(patterns[k], formats[k], counts[k], counts[k + 1], fmts)
  }

  ghost predicate LoadedAt(pattern: string, specs: seq<Spec>, from: nat, to: nat, fmts: seq<string>) {
    && Compile(pattern, from) == Some(Compiled(specs, to))
    && from <= to <= |fmts| && TimeFormats(specs) == fmts[from..to]
    && Numbered(Compiled(specs, to), fmts[..from])
  }

  lemma PatternLoads(pattern: string, fmts: seq<string>)
    requires Compile(pattern, |fmts|).Some?
    ensures var c := Compile(pattern, |fmts|).value;
            LoadedAt(pattern, c.specs, |fmts|, c.timeCount, fmts + TimeFormats(c.specs))
            && c.timeCount == |fmts + TimeFormats(c.specs)|
  {
    var c := Compile(pattern, |fmts|).value;
    SlotsAreConsecutive(pattern, fmts, |fmts|);
    var more := fmts + TimeFormats(c.specs);
    assert more[..|fmts|] == fmts && more[|fmts|..|more|] == TimeFormats(c.specs);
  }

  lemma LoadedStays(pattern: string, specs: seq<Spec>, from: nat, to: nat, fmts: seq<string>, more: seq<string>)
    requires LoadedAt(pattern, specs, from, to, fmts) && fmts <= more
    ensures LoadedAt(pattern, specs, from, to, more)
  {
    assert more[..from] == fmts[..from] && more[from..to] == fmts[from..to];
  }

  lemma EarlierStay(patterns: seq<string>, formats: seq<seq<Spec>>, counts: seq<nat>, fmts: seq<string>,
                    more: seq<string>, k: nat)
    requires Loaded(patterns, formats, counts, fmts) && fmts <= more && k < |patterns|
    ensures LoadedAt(patterns[k], formats[k], counts[k], counts[k + 1], more)
  {
    assert LoadedAt(patterns[k], formats[k], counts[k], counts[k + 1], fmts);
    LoadedStays(patterns[k], formats[k], counts[k], counts[k + 1], fmts, more);
  }

  lemma NextLoads(next: string, fmts: seq<string>, c: Compiled)
    requires Compile(next, |fmts|) == Some(c)
    ensures LoadedAt(next, c.specs, |fmts|, c.timeCount, fmts + TimeFormats(c.specs))
    ensures c.timeCount == |fmts + TimeFormats(c.specs)|
  {
    PatternLoads(next, fmts);
  }

  /** One more pattern. */
  lemma LoadNext(patterns: seq<string>, k: nat, formats: seq<seq<Spec>>, counts: seq<nat>, fmts: seq<string>,
                 c: Compiled)
    requires k < |patterns| && Loaded(patterns[..k], formats, counts, fmts) && Compile(patterns[k], |fmts|) == Some(c)
    ensures Loaded(patterns[..k + 1], formats + [c.specs], counts + [c.timeCount], fmts + TimeFormats(c.specs))
  {
    var more := fmts + TimeFormats(c.specs);
    NextLoads(patterns[k], fmts, c);
    forall l: nat | l < k
      ensures LoadedAt(patterns[..k][l], formats[l], counts[l], counts[l + 1], more)
    {
      EarlierStay(patterns[..k], formats, counts, fmts, more, l);
    }
    LoadedFrom(patterns, k, formats, counts, c, more);
  }

  lemma LoadedFrom(patterns: seq<string>, k: nat, formats: seq<seq<Spec>>, counts: seq<nat>, c: Compiled,
                   more: seq<string>)
    requires k < |patterns| && |formats| == k && |counts| == k + 1 && counts[0] == 0 && c.timeCount == |more|
    requires forall l: nat :: l < k ==> LoadedAt(patterns[..k][l], formats[l], counts[l], counts[l + 1], more)
    requires LoadedAt(patterns[k], c.specs, counts[k], c.timeCount, more)
    ensures Loaded(patterns[..k + 1], formats + [c.specs], counts + [c.timeCount], more)
  {
    var ps, fs, cs := patterns[..k + 1], formats + [c.specs], counts + [c.timeCount];
    forall l | 0 <= l < |ps|
      ensures LoadedAt(ps[l], fs[l], cs[l], cs[l + 1], more)
    {
      if l < k {
        assert ps[l] == patterns[..k][l] && fs[l] == formats[l] && cs[l] == counts[l] && cs[l + 1] == counts[l + 1];
      } else {
        assert ps[l] == patterns[k] && fs[l] == c.specs && cs[l] == counts[k] && cs[l + 1] == c.timeCount;
      }
    }
  }

  /** What one format of a configuration is: its own pattern's slices, its time specs numbered from a count. */
  ghost predicate FormatMeans(pattern: string, specs: seq<Spec>, from: nat, to: nat) {
    && Concat(Texts(specs)) == pattern
    && Compile(pattern, from) == Some(Compiled(specs, to))
    && to == from + |TimeFormats(specs)|
  }

  lemma LoadedMeans(patterns: seq<string>, formats: seq<seq<Spec>>, counts: seq<nat>, fmts: seq<string>, k: nat)
    requires Loaded(patterns, formats, counts, fmts) && k < |patterns|
    ensures Indexed(formats[k], 0, fmts) && FormatMeans(patterns[k], formats[k], counts[k], counts[k + 1])
  {
    assert LoadedAt(patterns[k], formats[k], counts[k], counts[k + 1], fmts);
    FormatIndexed(patterns[k], formats[k], counts[k], counts[k + 1], fmts);
    SpecsTilePattern(patterns[k], counts[k]);
  }

  lemma InFront(fmts: seq<string>, from: nat, to: nat, k: nat, fmt: string)
    requires from <= to <= |fmts| && k < |fmts[..from] + fmts[from..to]|
    requires (fmts[..from] + fmts[from..to])[k] == fmt
    ensures k < to && fmts[k] == fmt
  {
  }

  /** A time spec's slot lies in its own pattern's part of the caches and holds its own format. */
  lemma SlotOf(pattern: string, specs: seq<Spec>, from: nat, to: nat, fmts: seq<string>, i: nat)
    requires LoadedAt(pattern, specs, from, to, fmts) && i < |specs| && specs[i].kind.Time?
    ensures from <= specs[i].kind.cacheIndex < to && fmts[specs[i].kind.cacheIndex] == specs[i].kind.fmt
  {
    assert Indexed(specs, |fmts[..from]|, fmts[..from] + fmts[from..to]);
    InFront(fmts, from, to, specs[i].kind.cacheIndex, specs[i].kind.fmt);
  }

  lemma {:induction false} CountsAscend(patterns: seq<string>, formats: seq<seq<Spec>>, counts: seq<nat>,
                                        fmts: seq<string>, k: nat, l: nat)
    requires Loaded(patterns, formats, counts, fmts) && k <= l <= |patterns|
    ensures counts[k] <= counts[l] <= |fmts|
    decreases l
  {
    if l < |patterns| {
      assert LoadedAt(patterns[l], formats[l], counts[l], counts[l + 1], fmts);
    }
    if k < l {
      assert LoadedAt(patterns[l - 1], formats[l - 1], counts[l - 1], counts[l], fmts);
      CountsAscend(patterns, formats, counts, fmts, k, l - 1);
    }
  }

  /** Across a whole configuration no two time specs share a cache, and every one has its own format's. */
  lemma ConfigurationSlots(patterns: seq<string>, formats: seq<seq<Spec>>, counts: seq<nat>, fmts: seq<string>,
                           k: nat, i: nat, l: nat, j: nat)
    requires Loaded(patterns, formats, counts, fmts) && k < |formats| && l < |formats|
    requires i < |formats[k]| && formats[k][i].kind.Time? && j < |formats[l]| && formats[l][j].kind.Time?
    ensures formats[k][i].kind.cacheIndex < |fmts|
    ensures fmts[formats[k][i].kind.cacheIndex] == formats[k][i].kind.fmt
    ensures k != l || i != j ==> formats[k][i].kind.cacheIndex != formats[l][j].kind.cacheIndex
  {
    assert LoadedAt(patterns[k], formats[k], counts[k], counts[k + 1], fmts);
    assert LoadedAt(patterns[l], formats[l], counts[l], counts[l + 1], fmts);
    SlotOf(patterns[k], formats[k], counts[k], counts[k + 1], fmts, i);
    SlotOf(patterns[l], formats[l], counts[l], counts[l + 1], fmts, j);
    if k < l {
      CountsAscend(patterns, formats, counts, fmts, k + 1, l);
    } else if l < k {
      CountsAscend(patterns, formats, counts, fmts, l + 1, k);
    }
  }

  lemma FormatIndexed(pattern: string, specs: seq<Spec>, from: nat, to: nat, fmts: seq<string>)
    requires LoadedAt(pattern, specs, from, to, fmts)
    ensures Indexed(specs, 0, fmts)
  {
    forall i | 0 <= i < |specs| && specs[i].kind.Time?
      ensures specs[i].kind.cacheIndex < |fmts| && fmts[specs[i].kind.cacheIndex] == specs[i].kind.fmt
    {
      SlotOf(pattern, specs, from, to, fmts, i);
    }
  }

  lemma LetterAnyCount(c: char, m: nat, n: nat)
    ensures LetterKind(c, m).Some? <==> LetterKind(c, n).Some?
  {
  }

  lemma ConversionAnyCount(q: string, m: nat, n: nat)
    ensures ParseConversion(q, m).Some? <==> ParseConversion(q, n).Some?
    ensures ParseConversion(q, m).Some? ==> ParseConversion(q, m).value.length == ParseConversion(q, n).value.length
  {
    if q != "" {
      LetterAnyCount(q[0], m, n);
    }
  }

  /** Whether a pattern is accepted, and its slices, do not depend on the time specs before it. */
  lemma NextSpecAnyCount(rest: string, m: nat, n: nat)
    requires rest != ""
    ensures NextSpec(rest, m).Some? <==> NextSpec(rest, n).Some?
    ensures NextSpec(rest, m).Some? ==> NextSpec(rest, m).value.spec.text == NextSpec(rest, n).value.spec.text
  {
    if rest[0] == '%' {
      ConversionAnyCount(rest[1 + WidthRun(rest[1..])..], m, n);
    }
  }

  lemma {:induction false} CompileAnyCount(pattern: string, m: nat, n: nat)
    ensures Compile(pattern, m).Some? <==> Compile(pattern, n).Some?
    decreases |pattern|
  {
    if pattern != "" {
      NextSpecAnyCount(pattern, m, n);
      if NextSpec(pattern, m).Some? {
        var first, other := NextSpec(pattern, m).value, NextSpec(pattern, n).value;
        CompileAnyCount(pattern[|first.spec.text|..], first.timeCount, other.timeCount);
      }
    }
  }

  predicate Accepted(pattern: string) {
    Compile(pattern, 0).Some?
  }

  lemma AcceptedMeans(pattern: string, n: nat)
    ensures Accepted(pattern) <==> Compile(pattern, n).Some?
  {
    CompileAnyCount(pattern, 0, n);
  }

  // ---------------------------------------------------------------- what the conversions mean

  /** The single letters, whatever follows; m is the message unless it is the beginning of ms. */
  lemma LettersMean(rest: string, n: nat)
    ensures ParseConversion("c" + rest, n) == Some(Conversion(1, CategoryName))
    ensures ParseConversion("D" + rest, n) == Some(Conversion(1, Time("%F %T", n)))
    ensures ParseConversion("F" + rest, n) == Some(Conversion(1, SourceFile))
    ensures ParseConversion("f" + rest, n) == Some(Conversion(1, SourceFileNeat))
    ensures ParseConversion("H" + rest, n) == Some(Conversion(1, HostName))
    ensures ParseConversion("L" + rest, n) == Some(Conversion(1, SourceLine))
    ensures ParseConversion("n" + rest, n) == Some(Conversion(1, NewLine))
  {
  }

  lemma OtherLettersMean(rest: string, n: nat)
    ensures ParseConversion("p" + rest, n) == Some(Conversion(1, Pid))
    ensures ParseConversion("U" + rest, n) == Some(Conversion(1, SourceFunction))
    ensures ParseConversion("v" + rest, n) == Some(Conversion(1, LevelLower))
    ensures ParseConversion("V" + rest, n) == Some(Conversion(1, LevelUpper))
    ensures ParseConversion("t" + rest, n) == Some(Conversion(1, TidHex))
    ensures ParseConversion("T" + rest, n) == Some(Conversion(1, TidLong))
    ensures ParseConversion("%" + rest, n) == Some(Conversion(1, Percent))
    ensures ParseConversion("ms" + rest, n) == Some(Conversion(2, Millis))
    ensures ParseConversion("us" + rest, n) == Some(Conversion(2, Micros))
    ensures rest == "" || rest[0] != 's' ==> ParseConversion("m" + rest, n) == Some(Conversion(1, UserMessage))
    ensures rest == "" || rest[0] != 's' ==> ParseConversion("u" + rest, n) == None
  {
  }

  /** Every other beginning is a pattern error. */
  lemma OthersRefused(q: string, n: nat)
    requires q == "" || q[0] !in "cDdFfHLmMnpUuvVtT%"
    ensures ParseConversion(q, n) == None
  {
  }

  lemma {:induction false} IndexOfFirst(s: string, c: char, t: string)
    requires c !in s && t != "" && t[0] == c
    ensures IndexOf(s + t, c) == Some(|s|)
  {
    if s == "" {
      assert s + t == t;
    } else {
      IndexOfFirst(s[1..], c, t);
      assert (s + t)[1..] == s[1..] + t && (s + t)[0] == s[0];
    }
  }

  lemma Enclosed(text: string, rest: string, open: string)
    requires |open| == 2 && open[1] == '(' && ')' !in text
    ensures ParenthesisedText(open + text + ")" + rest) == Some(text)
    ensures ParenthesisedText(open + text) == None
    ensures (open + text + ")" + rest)[..2] == open && (open + text)[..2] == open
    ensures (open + text + ")" + rest)[2] == ')' <==> text == ""
  {
    var q := open + text + ")" + rest;
    IndexOfFirst(text, ')', ")" + rest);
    assert q[2..] == text + (")" + rest) && q[2..2 + |text|] == text;
    assert (open + text)[2..] == text;
    assert q[2] == (text + (")" + rest))[0];
  }

  /** A parenthesised text reaches to the first closing parenthesis; without one the pattern is refused. */
  lemma ParenthesesMean(text: string, rest: string, n: nat)
    requires ')' !in text
    ensures ParseConversion("d(" + text + ")" + rest, n)
         == Some(Conversion(|text| + 3, Time(if text == "" then "%F %T" else text, n)))
    ensures ParseConversion("M(" + text + ")" + rest, n) == Some(Conversion(|text| + 3, Mdc(text)))
    ensures text != "" ==> ParseConversion("d(" + text, n) == None
    ensures ParseConversion("M(" + text, n) == None
  {
    Enclosed(text, rest, "d(");
    Enclosed(text, rest, "M(");
  }

  /** A date without parentheses has the default format; a key needs them. */
  lemma NoParenthesesMean(rest: string, n: nat)
    requires rest == "" || rest[0] != '('
    ensures ParseConversion("d" + rest, n) == Some(Conversion(1, Time("%F %T", n)))
    ensures ParseConversion("M" + rest, n) == None
  {
  }

  lemma ScanLongOf(a: string, rest: string)
    requires a != "" && AllDigits(a, 10) && (rest == "" || !IsDigit(rest[0], 10))
    ensures ScanLong(a + rest) == Value(a, 10)
  {
    assert IsDigit(a[0], 10) && (a + rest)[0] == a[0];
    LeadingDigitsOf(a, rest);
    assert (a + rest)[..|a|] == a;
  }

  lemma NoDotIn(a: string)
    requires AllDigits(a, 10)
    ensures '.' !in a
  {
    assert forall i :: 0 <= i < |a| ==> IsDigit(a[i], 10);
  }

  lemma {:induction false} NotFound(s: string, c: char)
    requires c !in s
    ensures IndexOf(s, c) == None
  {
    if s != "" {
      NotFound(s[1..], c);
    }
  }

  lemma OneWidth(left: bool, a: string)
    requires a != "" && AllDigits(a, 10) && Value(a, 10) < SIZE_T
    ensures ParseWidths(left, a) == Reformat(left, Value(a, 10), 0)
  {
    assert a + "" == a;
    ScanLongOf(a, "");
    NoDotIn(a);
    NotFound(a, '.');
  }

  lemma BothWidths(left: bool, a: string, b: string)
    requires a != "" && AllDigits(a, 10) && Value(a, 10) < SIZE_T
    requires b != "" && AllDigits(b, 10) && Value(b, 10) < SIZE_T
    ensures ParseWidths(left, a + ("." + b)) == Reformat(left, Value(a, 10), Value(b, 10))
  {
    ScanLongOf(a, "." + b);
    NoDotIn(a);
    IndexOfFirst(a, '.', "." + b);
    Behind(a, b);
    ScanLongOf(b, "");
  }

  lemma SignMeans(p: string)
    requires p != "" && p[0] != '-'
    ensures ParsePrintFmt(p) == ParseWidths(false, p) && ParsePrintFmt("-" + p) == ParseWidths(true, p)
  {
    assert ("-" + p)[1..] == p;
  }

  lemma DigitsNotMinus(value: nat, rest: string)
    ensures Digits(value, 10) + rest != "" && (Digits(value, 10) + rest)[0] != '-'
  {
    var a := Digits(value, 10);
    DigitsDenote(value, 10);
    assert IsDigit(a[0], 10) && (a + rest)[0] == a[0];
  }

  /** The widths of a conversion are the numbers written in front of it. */
  lemma WidthsMean(least: nat, greatest: nat)
    requires least < SIZE_T && greatest < SIZE_T
    ensures ParsePrintFmt(Digits(least, 10) + ("." + Digits(greatest, 10))) == Reformat(false, least, greatest)
    ensures ParsePrintFmt("-" + (Digits(least, 10) + ("." + Digits(greatest, 10)))) == Reformat(true, least, greatest)
  {
    var a, b := Digits(least, 10), Digits(greatest, 10);
    DigitsDenote(least, 10);
    DigitsDenote(greatest, 10);
    DigitsNotMinus(least, "." + b);
    SignMeans(a + ("." + b));
    BothWidths(true, a, b);
    BothWidths(false, a, b);
  }

  /** Without a dot there is no greatest width. */
  lemma LeastWidthMeans(least: nat)
    requires least < SIZE_T
    ensures ParsePrintFmt(Digits(least, 10)) == Reformat(false, least, 0)
    ensures ParsePrintFmt("-" + Digits(least, 10)) == Reformat(true, least, 0)
  {
    var a := Digits(least, 10);
    DigitsDenote(least, 10);
    DigitsNotMinus(least, "");
    assert a + "" == a;
    SignMeans(a);
    OneWidth(true, a);
    OneWidth(false, a);
  }

  lemma Behind(a: string, b: string)
    requires a != "" && AllDigits(a, 10)
    ensures var p := a + ("." + b); p[|a| + 1..] == b && p[0] != '-' && b + "" == b
  {
    assert IsDigit(a[0], 10) && (a + ("." + b))[0] == a[0];
  }

  /** A constant text reaches to the next percent sign. */
  lemma ConstantsMean(text: string, rest: string, n: nat)
    requires text != "" && '%' !in text
    ensures NextSpec(text, n) == Some(Parsed(Spec(text, ConstText, Direct), n))
    ensures NextSpec(text + "%" + rest, n) == Some(Parsed(Spec(text, ConstText, Direct), n))
  {
    IndexOfFirst(text, '%', "%" + rest);
    assert text + "%" + rest == text + ("%" + rest);
    assert (text + "%" + rest)[..|text|] == text && (text + "%" + rest)[0] == text[0];
  }

  lemma {:induction false} WidthRunOf(run: string, q: string)
    requires (forall i :: 0 <= i < |run| ==> IsWidthChar(run[i])) && (q == "" || !IsWidthChar(q[0]))
    ensures WidthRun(run + q) == |run|
  {
    if run == "" {
      assert run + q == q;
    } else {
      WidthRunOf(run[1..], q);
      assert (run + q)[1..] == run[1..] + q && (run + q)[0] == run[0];
    }
  }

  /** A conversion is a percent sign, an optional width, and what follows; only a width makes it use the side buffer. */
  lemma ConversionMeans(run: string, q: string, n: nat)
    requires (forall i :: 0 <= i < |run| ==> IsWidthChar(run[i])) && (q == "" || !IsWidthChar(q[0]))
    ensures NextSpec("%" + (run + q), n).Some? <==> ParseConversion(q, n).Some?
    ensures ParseConversion(q, n).Some? ==>
            var c := ParseConversion(q, n).value;
            NextSpec("%" + (run + q), n).value
            == Parsed(Spec("%" + (run + q[..c.length]), c.kind, if run == "" then Direct else ParsePrintFmt(run)),
                      if c.kind.Time? then n + 1 else n)
  {
    var rest := "%" + (run + q);
    WidthRunOf(run, q);
    Sliced(run, q);
    ConversionAt(rest, run, q, n);
    if ParseConversion(q, n).Some? {
      SlicedAt(run, q, ParseConversion(q, n).value.length);
    }
  }

  lemma Sliced(run: string, q: string)
    ensures var rest := "%" + (run + q); rest[1..] == run + q && rest[1 + |run|..] == q && rest[1..1 + |run|] == run
  {
  }

  lemma SlicedAt(run: string, q: string, length: nat)
    requires length <= |q|
    ensures ("%" + (run + q))[..1 + |run| + length] == "%" + (run + q[..length])
  {
  }

  lemma ConversionAt(rest: string, run: string, q: string, n: nat)
    requires rest != "" && rest[0] == '%' && WidthRun(rest[1..]) == |run|
    requires rest[1..1 + |run|] == run && rest[1 + |run|..] == q
    ensures NextSpec(rest, n).Some? <==> ParseConversion(q, n).Some?
    ensures ParseConversion(q, n).Some? ==>
            var c := ParseConversion(q, n).value;
            NextSpec(rest, n).value
            == Parsed(Spec(rest[..1 + |run| + c.length], c.kind, WidthOf(run)), if c.kind.Time? then n + 1 else n)
  {
  }
}
