/**
 The growable log buffer. Every writer either fits, grows the block, or hits the
 configured cap, cuts the text and lays the truncation marker over its tail.
 */
module LogBuffer {
  import opened Text
  import opened Option

  const MARKER_MAX := 1024
  const INT32_LEN := 11
  const INT64_LEN := 20
  const MAX_UINT32 := 0xffff_ffff
  const MAX_UINT64 := 0xffff_ffff_ffff_ffff

  // ---------------------------------------------------------------- simple specification

  /** One byte of a capped block is kept back for sealing; a cap of 0 means no cap. */
  predicate Overflows(text: string, cap: nat) {
    cap != 0 && cap <= |text|
  }

  /** The marker laid over the tail of the text, its own tail dropped when the text is shorter. */
  function Overlay(text: string, marker: string): (r: string)
    ensures |r| == |text|
  {
    if |marker| <= |text| then text[..|text| - |marker|] + marker else marker[..|text|]
  }

  /** What a buffer holds after being given text. */
  function Cut(text: string, cap: nat, marker: string): (r: string)
    ensures cap != 0 ==> |r| < cap
  {
    if Overflows(text, cap) then Overlay(text[..cap - 1], marker) else text
  }

  /** A text that fits stays; of one that does not, cap - 1 characters are left, the last of them the marker's. */
  lemma CutMeans(text: string, cap: nat, marker: string)
    ensures cap == 0 || |text| < cap ==> Cut(text, cap, marker) == text
    ensures 0 < cap <= |text| && |marker| < cap ==>
        Cut(text, cap, marker) == text[..cap - 1 - |marker|] + marker
    ensures 0 < cap <= |text| && cap <= |marker| ==> Cut(text, cap, marker) == marker[..cap - 1]
  {
    if 0 < cap <= |text| && |marker| < cap {
      assert text[..cap - 1][..cap - 1 - |marker|] == text[..cap - 1 - |marker|];
    }
  }

  /** The text zlog_buf_adjust_append is asked for: cut to outWidth, then padded to inWidth. */
  function Adjusted(s: string, leftAdjust: bool, inWidth: nat, outWidth: nat): (r: string)
    ensures |r| >= inWidth
  {
    var source := if outWidth == 0 || |s| < outWidth then s else s[..outWidth];
    if |source| >= inWidth then source
    else if leftAdjust then source + Repeat(' ', inWidth - |source|)
    else Repeat(' ', inWidth - |source|) + source
  }

  /** At most outWidth characters of the text, at least inWidth in all, the spaces on the side away from the text. */
  lemma AdjustedMeans(s: string, leftAdjust: bool, inWidth: nat, outWidth: nat)
    ensures var r := Adjusted(s, leftAdjust, inWidth, outWidth);
            var kept := if 0 < outWidth < |s| then outWidth else |s|;
            && |r| == (if kept < inWidth then inWidth else kept)
            && (leftAdjust ==> r[..kept] == s[..kept] && forall i :: kept <= i < |r| ==> r[i] == ' ')
            && (!leftAdjust ==> r[|r| - kept..] == s[..kept] && forall i :: 0 <= i < |r| - kept ==> r[i] == ' ')
  {
  }

  lemma OverlayAt(text: string, marker: string, p: nat)
    requires p == if |marker| <= |text| then |text| - |marker| else 0
    ensures |text| - p <= |marker| && Overlay(text, marker) == text[..p] + marker[..|text| - p]
  {
    assert |marker| <= |text| ==> marker[..|text| - p] == marker;
  }

  lemma OverlayTwice(text: string, marker: string)
    ensures Overlay(Overlay(text, marker), marker) == Overlay(text, marker)
  {
    var r := Overlay(text, marker);
    if |marker| <= |text| {
      assert r[..|text| - |marker|] == text[..|text| - |marker|];
    }
  }

  /** Cutting in the middle of a run of writes is invisible at its end. */
  lemma CutAgain(text: string, more: string, cap: nat, marker: string)
    ensures Cut(Cut(text, cap, marker) + more, cap, marker) == Cut(text + more, cap, marker)
    ensures Overflows(text, cap) ==> Cut(text + more, cap, marker) == Cut(text, cap, marker)
  {
    if Overflows(text, cap) {
      var kept := Overlay(text[..cap - 1], marker);
      assert (text + more)[..cap - 1] == text[..cap - 1];
      if more == "" {
        assert kept + more == kept;
      } else {
        assert (kept + more)[..cap - 1] == kept;
        OverlayTwice(text[..cap - 1], marker);
      }
    }
  }

  /** The buffer after each of the texts has been written, one cut per write. */
  function WriteEach(text: string, texts: seq<string>, cap: nat, marker: string): (r: string)
    decreases |texts|
  {
    if texts == [] then text
    else WriteEach(Cut(text + texts[0], cap, marker), texts[1..], cap, marker)
  }

  /** Any run of writes leaves what one write of the whole concatenation would leave. */
  lemma {:induction false} RunIsOneCut(text: string, texts: seq<string>, cap: nat, marker: string)
    requires !Overflows(text, cap)
    ensures WriteEach(text, texts, cap, marker) == Cut(text + Concat(texts), cap, marker)
    decreases |texts|
  {
    if texts == [] {
      assert text + Concat(texts) == text;
    } else {
      var first := text + texts[0];
      RunIsOneCut(Cut(first, cap, marker), texts[1..], cap, marker);
      CutAgain(first, Concat(texts[1..]), cap, marker);
      assert text + Concat(texts) == first + Concat(texts[1..]);
    }
  }

  /** Nothing is lost, reordered or marked exactly when the whole run fits under the cap. */
  lemma RunIsLosslessWhenItFits(texts: seq<string>, cap: nat, marker: string)
    ensures !Overflows(Concat(texts), cap) ==> WriteEach("", texts, cap, marker) == Concat(texts)
    ensures Overflows(Concat(texts), cap) ==> |WriteEach("", texts, cap, marker)| == cap - 1 < |Concat(texts)|
  {
    RunIsOneCut("", texts, cap, marker);
    assert "" + Concat(texts) == Concat(texts);
  }

  lemma PaddingPrefix(s: string, c: char, n: nat, k: nat)
    requires k <= |s| + n
    ensures (s + Repeat(c, n))[..k] == if k <= |s| then s[..k] else s + Repeat(c, k - |s|)
    ensures (Repeat(c, n) + s)[..k] == if k <= n then Repeat(c, k) else Repeat(c, n) + s[..k - n]
  {
  }

  // ---------------------------------------------------------------- digits

  /** The digit loop: fills the scratch area from its end while the value lasts. */
  method WriteDigits(value: nat, base: nat, area: nat) returns (number: string)
    requires base == 10 || base == 16
    requires value < Power(base, area) && 0 < area
    ensures number == Digits(value, base)
    ensures |number| <= area
  {
    var tmp := new char[area + 1];
    var p: nat, v: nat := area, value;
    DigitsLength(value, base, area);
    ghost var rest := "";
    while true
      invariant p == area - |rest| && |Digits(value, base)| <= area
      invariant tmp[p..area] == rest
      invariant Digits(value, base) == Digits(v, base) + rest
      decreases v
    {
      UnfoldDigits(v, base);
      var d := v % base;
      p := p - 1;
      tmp[p] := DigitChar(d);
      assert tmp[p + 1..area] == rest;
      rest := [DigitChar(d)] + rest;
      assert tmp[p..area] == [tmp[p]] + tmp[p + 1..area];
      v := v / base;
      if v == 0 {
        break;
      }
    }
    number := tmp[p..area];
  }

  lemma UnfoldDigits(v: nat, base: nat)
    requires base == 10 || base == 16
    ensures 0 <= v % base < 16 && 0 <= v / base && (v / base != 0 ==> v / base < v)
    ensures Digits(v, base) == (if v / base == 0 then "" else Digits(v / base, base)) + [DigitChar(v % base)]
  {
    DivisionShrinks(v, base);
  }

  /** The digit areas of the three number writers are large enough for every value of their type. */
  lemma DigitAreasSuffice()
    ensures MAX_UINT32 < Power(10, INT32_LEN) && MAX_UINT64 < Power(10, INT64_LEN)
    ensures MAX_UINT32 < Power(16, INT32_LEN)
  {
    var p5 := Power(10, 5);
    assert p5 == 100_000;
    PowerAdds(10, 5, 5);
    PowerAdds(10, 10, 1);
    PowerAdds(10, 10, 10);
    assert Power(16, 4) == 65_536;
    PowerAdds(16, 4, 4);
    PowerAdds(16, 8, 3);
    PowerPositive(16, 3);
    MulAtLeast(Power(16, 8), Power(16, 3));
  }

  lemma {:induction false} PowerAdds(base: nat, m: nat, n: nat)
    ensures Power(base, m + n) == Power(base, m) * Power(base, n)
  {
    if n > 0 {
      PowerAdds(base, m, n - 1);
      Regroup(base, Power(base, m), Power(base, n - 1));
    }
  }

  lemma Regroup(base: nat, a: nat, b: nat)
    ensures base * (a * b) == a * (base * b)
  {
  }

  // ---------------------------------------------------------------- runs of writers

  /** A call of one of the six writers; a printf is given by its output. */
  datatype Call =
    | AppendCall(s: string)
    | AdjustCall(s: string, leftAdjust: bool, inWidth: nat, outWidth: nat)
    | Dec32Call(value: nat, width: nat)
    | Dec64Call(value: nat, width: nat)
    | HexCall(value: nat, width: nat)
    | PrintfCall(s: string)

  predicate InRange(c: Call) {
    match c
    case Dec32Call(value, _) => value <= MAX_UINT32
    case Dec64Call(value, _) => value <= MAX_UINT64
    case HexCall(value, _) => value <= MAX_UINT32
    case _ => true
  }

  /** What a call asks the buffer to add. */
  function Asked(c: Call): (text: string) {
    match c
    case AppendCall(s) => s
    case AdjustCall(s, leftAdjust, inWidth, outWidth) => Adjusted(s, leftAdjust, inWidth, outWidth)
    case Dec32Call(value, width) => ZeroPad(Digits(value, 10), width)
    case Dec64Call(value, width) => ZeroPad(Digits(value, 10), width)
    case HexCall(value, width) => ZeroPad(Digits(value, 16), width)
    case PrintfCall(s) => s
  }

  function AllAsked(calls: seq<Call>): (text: string) {
    if calls == [] then "" else AllAsked(calls[..|calls| - 1]) + Asked(calls[|calls| - 1])
  }

  /** One more write on a buffer that already holds a cut text. */
  lemma OneMore(start: string, sofar: string, more: string, cap: nat, marker: string)
    ensures Cut(Cut(start + sofar, cap, marker) + more, cap, marker) == Cut(start + (sofar + more), cap, marker)
    ensures Overflows(start + sofar, cap) ==> Overflows(start + (sofar + more), cap)
    ensures !Overflows(start + sofar, cap) ==> Cut(start + sofar, cap, marker) + more == start + (sofar + more)
  {
    assert start + sofar + more == start + (sofar + more);
    CutAgain(start + sofar, more, cap, marker);
  }

  // ---------------------------------------------------------------- the buffer

  class LogBuffer {
    var store: array<char>  // start .. end_plus_1, so its length is size_real
    var tail: nat
    const sizeMin: nat
    const sizeMax: nat
    const marker: string

    ghost predicate Valid()
      reads this, store
    {
      && 1 <= sizeMin <= store.Length
      && (sizeMax != 0 ==> store.Length <= sizeMax)
      && tail < store.Length
    }

    ghost function Text(): (text: string)
      requires Valid()
      reads this, store
      ensures !Overflows(text, sizeMax)
    {
      store[..tail]
    }

    /** What every writer promises: the simple specification, and 1 exactly when the text was cut. */
    twostate predicate Wrote(s: string, rc: int)
      requires old(Valid())
      reads this, store
    {
      && Valid()
      && (store == old(store) || fresh(store))
      && Text() == Cut(old(Text()) + s, sizeMax, marker)
      && rc == (if Overflows(old(Text()) + s, sizeMax) then 1 else 0)
    }

    constructor (sizeMin: nat, sizeMax: nat, marker: string)
      requires sizeMin != 0 && (sizeMax == 0 || sizeMin <= sizeMax)
      ensures Valid() && fresh(store) && Text() == ""
      ensures this.sizeMin == sizeMin && this.sizeMax == sizeMax && this.marker == marker
    {
      this.sizeMin, this.sizeMax, this.marker := sizeMin, sizeMax, marker;
      store := new char[sizeMin](_ => '\0');
      tail := 0;
    }

    /** zlog_buf_new: a NULL result for sizes or a marker that the buffer cannot have. */
    static method New(sizeMin: nat, sizeMax: nat, marker: string) returns (buf: LogBuffer?)
      ensures buf == null <==> sizeMin == 0 || (sizeMax != 0 && sizeMax < sizeMin) || MARKER_MAX < |marker|
      ensures buf != null ==> fresh(buf) && fresh(buf.store) && buf.Valid() && buf.Text() == ""
      ensures buf != null ==> buf.sizeMin == sizeMin && buf.sizeMax == sizeMax && buf.marker == marker
    {
      if sizeMin == 0 || (sizeMax != 0 && sizeMax < sizeMin) || |marker| > MARKER_MAX {
        return null;
      }
      buf := new LogBuffer(sizeMin, sizeMax, marker);
    }

    method Restart()
      requires Valid()
      modifies this`tail
      ensures Valid() && Text() == ""
    {
      tail := 0;
    }

    /** Sealing writes one byte past the text, always inside the block. */
    method Seal()
      requires Valid()
      modifies store
      ensures Valid() && Text() == old(Text()) && store[tail] == '\0'
    {
      store[tail] := '\0';
    }

    /** memcpy to an offset of the block. */
    method CopyIn(at: nat, s: string)
      requires Valid() && at + |s| <= store.Length
      modifies store
      ensures Valid() && (at == tail ==> Text() == old(Text()))
      ensures store[..at] == old(store[..at])
      ensures store[at..at + |s|] == s
      ensures store[at + |s|..] == old(store[at + |s|..])
    {
      forall i | 0 <= i < |s| {
        store[at + i] := s[i];
      }
    }

    method Truncate()
      requires Valid()
      modifies store
      ensures Valid() && Text() == Overlay(old(Text()), marker)
    {
      if marker == "" {
        return;
      }
      var p := if |marker| <= tail then tail - |marker| else 0;
      var len := tail - p;
      OverlayAt(Text(), marker, p);
      CopyIn(p, marker[..len]);
      assert store[..p] == old(Text())[..p];
      assert Text() == store[..p] + store[p..tail];
    }

    /** Grows the block by the increment, or up to the cap (then 1); the text stays. */
    method Resize(increment: nat) returns (rc: int)
      requires Valid() && 0 < increment
      modifies this`store
      ensures Valid() && Text() == old(Text()) && tail == old(tail)
      ensures store == old(store) || fresh(store)
      ensures rc == (if sizeMax != 0 && sizeMax < old(store.Length) + increment then 1 else 0)
      ensures store.Length == if rc == 1 then sizeMax
                              else old(store.Length) + if sizeMax == 0 then 3 * increment / 2 else increment
      ensures rc == 0 ==> old(store.Length) + increment <= store.Length
    {
      if sizeMax != 0 && store.Length >= sizeMax {
        return 1;
      }
      var newSize: nat;
      rc := 0;
      if sizeMax == 0 {
        newSize := store.Length + 3 * increment / 2;
      } else if store.Length + increment <= sizeMax {
        newSize := store.Length + increment;
      } else {
        newSize := sizeMax;
        rc := 1;
      }
      var p := new char[newSize];
      forall i | 0 <= i < store.Length {
        p[i] := store[i];
      }
      assert p[..tail] == store[..tail];
      store := p;
    }

    /** Two adjacent memcpy/memset runs that fit, then the tail moves past them. */
    method Put(first: string, second: string)
      requires Valid() && tail + |first| + |second| < store.Length
      modifies store, this`tail
      ensures Valid() && Text() == old(Text()) + (first + second)
    {
      ghost var text := Text();
      CopyIn(tail, first);
      Advance(first, |first|);
      CopyIn(tail, second);
      Advance(second, |second|);
      assert text + (first + second) == text + first + second;
    }

    /** The writers' common end at the cap: what is left of the block is filled, then marked. */
    method PutAtCap(first: string, second: string, ghost whole: string)
      requires Valid() && store.Length == sizeMax == tail + |first| + |second| + 1
      requires sizeMax <= tail + |whole|
      requires first + second == whole[..sizeMax - 1 - tail]
      modifies store, this`tail
      ensures Valid() && Text() == Cut(old(Text()) + whole, sizeMax, marker)
    {
      Put(first, second);
      assert old(Text()) + (first + second) == (old(Text()) + whole)[..sizeMax - 1];
      Truncate();
    }

    method Append(s: string) returns (rc: int)
      requires Valid()
      modifies this, store
      ensures Wrote(s, rc)
    {
      if tail + |s| > store.Length - 1 {
        var grown := Resize(|s| - (store.Length - 1 - tail));
        if grown > 0 {
          var lenLeft := store.Length - 1 - tail;
          assert s[..lenLeft] + "" == s[..lenLeft];
          PutAtCap(s[..lenLeft], "", s);
          return 1;
        }
      }
      assert s + "" == s;
      Put(s, "");
      return 0;
    }

    method AdjustAppend(s: string, leftAdjust: bool, inWidth: nat, outWidth: nat) returns (rc: int)
      requires Valid()
      modifies this, store
      ensures Wrote(Adjusted(s, leftAdjust, inWidth, outWidth), rc)
    {
      var sourceLen := if outWidth == 0 || |s| < outWidth then |s| else outWidth;
      var appendLen, spaceLen := sourceLen, 0;
      if !(inWidth == 0 || sourceLen >= inWidth) {
        appendLen, spaceLen := inWidth, inWidth - sourceLen;
      }
      ghost var whole := Adjusted(s, leftAdjust, inWidth, outWidth);
      var source := s[..sourceLen];
      assert whole == if leftAdjust then source + Repeat(' ', spaceLen) else Repeat(' ', spaceLen) + source;
      if appendLen > store.Length - 1 - tail {
        var grown := Resize(appendLen - (store.Length - 1 - tail));
        if grown > 0 {
          PutAdjustedAtCap(source, leftAdjust, spaceLen);
          return 1;
        }
      }
      if leftAdjust {
        Put(source, Repeat(' ', spaceLen));
      } else {
        Put(Repeat(' ', spaceLen), source);
      }
      return 0;
    }

    /** The block is at its cap: source and spaces are shortened to the room that is left. */
    method PutAdjustedAtCap(source: string, leftAdjust: bool, spaces: nat)
      requires Valid() && store.Length == sizeMax <= tail + |source| + spaces
      modifies store, this`tail
      ensures Valid()
      ensures var whole := if leftAdjust then source + Repeat(' ', spaces) else Repeat(' ', spaces) + source;
              Text() == Cut(old(Text()) + whole, sizeMax, marker)
    {
      var appendLen := store.Length - 1 - tail;
      var sourceLen, spaceLen := |source|, spaces;
      PaddingPrefix(source, ' ', spaces, appendLen);
      if leftAdjust {
        if sourceLen < appendLen {
          spaceLen := appendLen - sourceLen;
        } else {
          sourceLen, spaceLen := appendLen, 0;
        }
        assert Repeat(' ', 0) == "" && source[..sourceLen] + "" == source[..sourceLen];
        PutAtCap(source[..sourceLen], Repeat(' ', spaceLen), source + Repeat(' ', spaces));
      } else {
        if spaceLen < appendLen {
          sourceLen := appendLen - spaceLen;
        } else {
          spaceLen, sourceLen := appendLen, 0;
        }
        assert Repeat(' ', spaceLen) + "" == Repeat(' ', spaceLen);
        PutAtCap(Repeat(' ', spaceLen), source[..sourceLen], Repeat(' ', spaces) + source);
      }
    }

    /** The shared end of the number writers: zeros, then the digits. */
    method PutNumber(number: string, width: nat) returns (rc: int)
      requires Valid()
      modifies this, store
      ensures Wrote(ZeroPad(number, width), rc)
    {
      var numLen := |number|;
      var zeroLen, outLen := 0, numLen;
      if width > numLen {
        zeroLen, outLen := width - numLen, width;
      }
      ghost var whole := ZeroPad(number, width);
      if tail + outLen > store.Length - 1 {
        var grown := Resize(outLen - (store.Length - 1 - tail));
        if grown > 0 {
          var lenLeft := store.Length - 1 - tail;
          if lenLeft <= zeroLen {
            zeroLen, numLen := lenLeft, 0;
          } else {
            numLen := lenLeft - zeroLen;
          }
          assert Repeat('0', zeroLen) + number[..numLen] == whole[..lenLeft];
          PutAtCap(Repeat('0', zeroLen), number[..numLen], whole);
          return 1;
        }
      }
      assert Repeat('0', zeroLen) + number[..numLen] == whole;
      Put(Repeat('0', zeroLen), number[..numLen]);
      return 0;
    }

    method PrintDec32(value: nat, width: nat) returns (rc: int)
      requires Valid() && value <= MAX_UINT32
      modifies this, store
      ensures Wrote(ZeroPad(Digits(value, 10), width), rc)
    {
      DigitAreasSuffice();
      var number := WriteDigits(value, 10, INT32_LEN);
      rc := PutNumber(number, width);
    }

    /** Small values take the 32-bit loop; it emits what the 64-bit loop would. */
    method PrintDec64(value: nat, width: nat) returns (rc: int)
      requires Valid() && value <= MAX_UINT64
      modifies this, store
      ensures Wrote(ZeroPad(Digits(value, 10), width), rc)
    {
      DigitAreasSuffice();
      var number;
      if value <= MAX_UINT32 {
        number := WriteDigits(value % 0x1_0000_0000, 10, INT64_LEN);
      } else {
        number := WriteDigits(value, 10, INT64_LEN);
      }
      rc := PutNumber(number, width);
    }

    method PrintHex(value: nat, width: nat) returns (rc: int)
      requires Valid() && value <= MAX_UINT32
      modifies this, store
      ensures Wrote(ZeroPad(Digits(value, 16), width), rc)
    {
      DigitAreasSuffice();
      var number := WriteDigits(value, 16, INT32_LEN);
      rc := PutNumber(number, width);
    }

    /**
     vsnprintf at the tail, by section 7.19.6.5 of ISO C99: as much of the output as leaves room
     for the null character is stored, and the length of the whole output is returned.
     */
    method Vsnprintf(output: string) returns (n: nat)
      requires Valid()
      modifies store
      ensures Valid() && Text() == old(Text()) && n == |output|
      ensures var k := if n < store.Length - tail then n else store.Length - tail - 1;
              store[tail..tail + k] == output[..k] && store[tail + k] == '\0'
    {
      n := |output|;
      var room := store.Length - tail;
      var k := if n < room then n else room - 1;
      CopyIn(tail, output[..k] + ['\0']);
      assert store[tail..tail + k] == store[tail..tail + k + 1][..k];
      assert store[tail + k] == store[tail..tail + k + 1][k];
    }

    /** The output of the format is a parameter; None stands for vsnprintf's encoding error. */
    method Vprintf(output: Option<string>) returns (rc: int)
      requires Valid()
      modifies this, store
      ensures output.Some? ==> Wrote(output.value, rc)
      ensures output.None? ==> rc == -1 && Valid() && store == old(store) && Text() == old(Text())
    {
      if output.None? {
        return -1;
      }
      var sizeLeft := store.Length - tail;
      var nwrite := Vsnprintf(output.value);
      if nwrite < sizeLeft {
        Advance(output.value, nwrite);
        return 0;
      }
      var grown := Resize(nwrite - sizeLeft + 1);
      if grown > 0 {
        PrintAtCap(output.value);
        return 1;
      }
      nwrite := Vsnprintf(output.value);
      Advance(output.value, nwrite);
      return 0;
    }

    /** The block is at its cap: the second vsnprintf fills what is left, and the marker is laid over it. */
    method PrintAtCap(output: string)
      requires Valid() && store.Length == sizeMax <= tail + |output|
      modifies store, this`tail
      ensures Valid() && Text() == Cut(old(Text()) + output, sizeMax, marker)
    {
      var sizeLeft := store.Length - tail;
      var nwrite := Vsnprintf(output);
      Advance(output[..sizeLeft - 1], sizeLeft - 1);
      assert Text() == (old(Text()) + output)[..sizeMax - 1];
      Truncate();
    }

    /** The tail moves over bytes that are already in the block. */
    method Advance(ghost s: string, n: nat)
      requires Valid() && n == |s| && tail + n < store.Length && store[tail..tail + n] == s
      modifies this`tail
      ensures Valid() && Text() == old(Text()) + s
    {
      ghost var was := tail;
      tail := tail + n;
      assert Text() == store[..was] + store[was..tail];
    }

    method Perform(c: Call) returns (rc: int)
      requires Valid() && InRange(c)
      modifies this, store
      ensures Wrote(Asked(c), rc)
    {
      match c {
        case AppendCall(s) => rc := Append(s);
        case AdjustCall(s, leftAdjust, inWidth, outWidth) => rc := AdjustAppend(s, leftAdjust, inWidth, outWidth);
        case Dec32Call(value, width) => rc := PrintDec32(value, width);
        case Dec64Call(value, width) => rc := PrintDec64(value, width);
        case HexCall(value, width) => rc := PrintHex(value, width);
        case PrintfCall(s) => rc := Vprintf(Some(s));
      }
    }

    /** Every run of writers, whether or not callers stop at a full buffer, leaves one cut of everything asked for. */
    method PerformAll(calls: seq<Call>) returns (cut: bool)
      requires Valid() && forall i :: 0 <= i < |calls| ==> InRange(calls[i])
      modifies this, store
      ensures Valid() && Text() == Cut(old(Text()) + AllAsked(calls), sizeMax, marker)
      ensures cut <==> 0 < sizeMax <= |old(Text()) + AllAsked(calls)|
      ensures !cut ==> Text() == old(Text()) + AllAsked(calls)
      ensures cut ==> |Text()| == sizeMax - 1
      ensures cut && |marker| < sizeMax ==>
        Text() == (old(Text()) + AllAsked(calls))[..sizeMax - 1 - |marker|] + marker
      ensures cut && sizeMax <= |marker| ==> Text() == marker[..sizeMax - 1]
    {
      ghost var start := Text();
      cut := false;
      assert start + AllAsked(calls[..0]) == start;
      for i := 0 to |calls|
        invariant Valid() && (store == old(store) || fresh(store))
        invariant Text() == Cut(start + AllAsked(calls[..i]), sizeMax, marker)
        invariant cut <==> Overflows(start + AllAsked(calls[..i]), sizeMax)
      {
        assert calls[..i + 1][..i] == calls[..i];
        OneMore(start, AllAsked(calls[..i]), Asked(calls[i]), sizeMax, marker);
        var rc := Perform(calls[i]);
        if rc > 0 {
          cut := true;
        }
      }
      assert calls[..|calls|] == calls;
    }
  }
}
