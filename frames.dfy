/**
 * Rendered-frame file names and the lines of an ffmpeg concat manifest,
 * shared by the render script (which writes `frame_{frame:04d}.png`) and
 * the compiler (which reads the frame index back out of such a name).
 */
module Frames {
  import opened Outcomes
  import opened Strings

  // ---------------------------------------------------------------------
  // format(frame, "04d")

  function DigitChar(d: nat): char
    requires d < 10
  {
    ('0' as int + d) as char
  }

  predicate AllDigits(s: string)
  {
    forall i :: 0 <= i < |s| ==> '0' <= s[i] <= '9'
  }

  /** `str(n)` for a non-negative n: no leading zeros, "0" for zero. */
  function Digits(n: nat): (s: string)
    ensures |s| >= 1 && AllDigits(s)
    decreases n
  {
    if n < 10 then [DigitChar(n)] else Digits(n / 10) + [DigitChar(n % 10)]
  }

  function Zeros(k: nat): (z: string)
    ensures |z| == k && AllDigits(z)
  {
    seq(k, _ => '0')
  }

  /** Left-pads with '0' up to `width` characters. */
  function ZeroPad(s: string, width: nat): string
    decreases width - |s|
  {
    if |s| >= width then s else ZeroPad(['0'] + s, width)
  }

  /** `format(n, "04d")`: sign-aware zero padding to a width of four. */
  function Format04d(n: int): string
  {
    (if n >= 0 then "" else "-") + ZeroPad(Digits(Abs(n)), if n >= 0 then 4 else 3)
  }

  function Abs(n: int): nat
  {
    if n >= 0 then n else -n
  }

  /** `f"frame_{frame:04d}.png"` (render_animation.py:151, 164, 171). */
  function FrameFileName(frame: int): string
  {
    "frame_" + Format04d(frame) + ".png"
  }

  // ---------------------------------------------------------------------
  // int(text)

  function DigitValue(c: char): nat
    requires '0' <= c <= '9'
  {
    c as int - '0' as int
  }

  function DecimalValue(s: string): nat
    requires AllDigits(s)
    decreases |s|
  {
    if s == [] then 0 else DecimalValue(s[..|s| - 1]) * 10 + DigitValue(s[|s| - 1])
  }

  /** `int(s)` on an optional sign followed by decimal digits; None is the ValueError. */
  function ParseInt(s: string): Option<int>
  {
    if s != [] && (s[0] == '-' || s[0] == '+') then
      var body := s[1..];
      if body != [] && AllDigits(body) then
        Some(if s[0] == '-' then -(DecimalValue(body) as int) else DecimalValue(body))
      else None
    else if s != [] && AllDigits(s) then Some(DecimalValue(s))
    else None
  }

  /**
   * `int(name.split("_")[1].split(".")[0])` (main.py:302); None stands for
   * the IndexError of a name without '_' and for the ValueError of `int`.
   */
  function FrameIndexOf(name: string): Option<int>
  {
    var fields := Split(name, '_');
    if |fields| < 2 then None else ParseInt(Split(fields[1], '.')[0])
  }

  lemma {:induction false} DecimalValueOfDigits(n: nat)
    ensures DecimalValue(Digits(n)) == n
    decreases n
  {
    if n >= 10 {
      DecimalValueOfDigits(n / 10);
      var s := Digits(n);
      assert s[..|s| - 1] == Digits(n / 10);
    }
  }

  lemma {:induction false} DecimalValueOfZeros(k: nat)
    ensures DecimalValue(Zeros(k)) == 0
    decreases k
  {
    if k > 0 {
      assert Zeros(k)[..k - 1] == Zeros(k - 1);
      DecimalValueOfZeros(k - 1);
    }
  }

  lemma {:induction false} LeadingZerosIgnored(k: nat, s: string)
    requires AllDigits(s)
    ensures AllDigits(Zeros(k) + s)
    ensures DecimalValue(Zeros(k) + s) == DecimalValue(s)
    decreases |s|
  {
    var t := Zeros(k) + s;
    if s == [] {
      assert t == Zeros(k);
      DecimalValueOfZeros(k);
    } else {
      assert t[..|t| - 1] == Zeros(k) + s[..|s| - 1];
      assert t[|t| - 1] == s[|s| - 1];
      LeadingZerosIgnored(k, s[..|s| - 1]);
    }
  }

  /** Padding a numeral with zeros keeps it a numeral of the same value. */
  lemma {:induction false} ZeroPadDigits(s: string, width: nat)
    requires |s| >= 1 && AllDigits(s)
    ensures |ZeroPad(s, width)| >= 1 && AllDigits(ZeroPad(s, width))
    ensures DecimalValue(ZeroPad(s, width)) == DecimalValue(s)
    decreases width - |s|
  {
    if |s| < width {
      LeadingZerosIgnored(1, s);
      assert Zeros(1) + s == ['0'] + s;
      ZeroPadDigits(['0'] + s, width);
    }
  }

  lemma PaddedDigits(n: nat, width: nat)
    ensures |ZeroPad(Digits(n), width)| >= 1
    ensures AllDigits(ZeroPad(Digits(n), width))
    ensures DecimalValue(ZeroPad(Digits(n), width)) == n
  {
    DecimalValueOfDigits(n);
    ZeroPadDigits(Digits(n), width);
  }

  /** `int` reads back what `format(n, "04d")` wrote, negative numbers included. */
  lemma Format04dParses(n: int)
    ensures ParseInt(Format04d(n)) == Some(n)
    ensures '_' !in Format04d(n) && '.' !in Format04d(n)
  {
    if n >= 0 {
      assert Format04d(n) == ZeroPad(Digits(n), 4);
      UnsignedParses(ZeroPad(Digits(n), 4), n);
    } else {
      assert Format04d(n) == "-" + ZeroPad(Digits(-n), 3);
      NegativeParses(ZeroPad(Digits(-n), 3), -n);
    }
  }

  lemma UnsignedParses(s: string, n: nat)
    requires s == ZeroPad(Digits(n), 4)
    ensures ParseInt(s) == Some(n) && '_' !in s && '.' !in s
  {
    PaddedDigits(n, 4);
    assert s[0] != '-' && s[0] != '+';
  }

  lemma NegativeParses(body: string, n: nat)
    requires body == ZeroPad(Digits(n), 3) && n > 0
    ensures ParseInt("-" + body) == Some(-(n as int)) && '_' !in "-" + body && '.' !in "-" + body
  {
    PaddedDigits(n, 3);
    var s := "-" + body;
    assert s[1..] == body;
  }

  /** The compiler's frame-name parse recovers the frame the render script named. */
  lemma FrameNameRoundTrip(frame: int)
    ensures FrameIndexOf(FrameFileName(frame)) == Some(frame)
  {
    var f := Format04d(frame);
    Format04dParses(frame);
    assert FrameFileName(frame) == "frame" + ['_'] + (f + ['.'] + "png");
    SplitAtSeparator("frame", f + ['.'] + "png", '_');
    assert '_' !in f + ['.'] + "png";
    SplitNoSeparator(f + ['.'] + "png", '_');
    SplitAtSeparator(f, "png", '.');
  }

  /** Distinct frames get distinct file names. */
  lemma FrameFileNameInjective(a: int, b: int)
    requires FrameFileName(a) == FrameFileName(b)
    ensures a == b
  {
    FrameNameRoundTrip(a);
    FrameNameRoundTrip(b);
  }

  // ---------------------------------------------------------------------
  // ffmpeg concat manifests

  /** One line of a concat manifest: `file '<path>'` or `duration <seconds>`. */
  datatype ManifestLine = FileLine(path: string) | DurationLine(seconds: real)

  /** The durations of a manifest, in order. */
  function Durations(lines: seq<ManifestLine>): seq<real>
    decreases |lines|
  {
    if lines == [] then []
    else (if lines[0].DurationLine? then [lines[0].seconds] else []) + Durations(lines[1..])
  }

  lemma {:induction false} DurationsAppend(a: seq<ManifestLine>, b: seq<ManifestLine>)
    ensures Durations(a + b) == Durations(a) + Durations(b)
    decreases |a|
  {
    if a != [] {
      assert (a + b)[1..] == a[1..] + b;
      DurationsAppend(a[1..], b);
    } else {
      assert a + b == b;
    }
  }

  function Sum(xs: seq<real>): real
    decreases |xs|
  {
    if xs == [] then 0.0 else xs[0] + Sum(xs[1..])
  }
}
