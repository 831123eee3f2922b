/**
 * The 'tokens_last_updated' timestamp of the token store.
 *
 * Times are integer microseconds since the epoch (UTC), the resolution of the
 * timestamps the client writes and reads back.  The timestamp's text is
 * abstracted to its two parts: the whole seconds (date and time of day, to
 * the second) and, when the text has one, the digits of its fractional part
 * after the '.'.
 */
module Timestamps {
  import opened Wrappers

  const MICROS_PER_SECOND: nat := 1_000_000

  /** The most fractional digits "%f" accepts: a microsecond has six. */
  const FRACTION_DIGITS: nat := 6

  type Digit = d: nat | d < 10

  datatype StampText = StampText(seconds: nat, fraction: Option<seq<Digit>>)

  function Pow10(n: nat): (p: nat)
    ensures p >= 1
  {
    if n == 0 then 1 else 10 * Pow10(n - 1)
  }

  lemma Pow10FractionDigits()
    ensures Pow10(FRACTION_DIGITS) == MICROS_PER_SECOND
  {
    assert Pow10(2) == 100;
    assert Pow10(4) == 10_000;
  }

  /** The number a digit string spells, most significant digit first. */
  function DigitsValue(ds: seq<Digit>): (v: nat)
    ensures v < Pow10(|ds|)
    decreases |ds|
  {
    if ds == [] then 0 else DigitsValue(ds[..|ds| - 1]) * 10 + ds[|ds| - 1]
  }

  /** The `n` digits of `m`, with leading zeros. */
  function Digits(m: nat, n: nat): (ds: seq<Digit>)
    requires m < Pow10(n)
    ensures |ds| == n && DigitsValue(ds) == m
  {
    if n == 0 then []
    else
      var ds := Digits(m / 10, n - 1) + [m % 10];
      assert ds[..n - 1] == Digits(m / 10, n - 1);
      ds
  }

  /** `ds` padded on the right with zeros to FRACTION_DIGITS digits. */
  function Padded(ds: seq<Digit>): (p: seq<Digit>)
    requires |ds| <= FRACTION_DIGITS
    ensures |p| == FRACTION_DIGITS && p[..|ds|] == ds
    ensures forall i | |ds| <= i < FRACTION_DIGITS :: p[i] == 0
  {
    ds + Zeros(FRACTION_DIGITS - |ds|)
  }

  /**
   * The microseconds a fractional part of at most six digits stands for:
   * "%f" pads it on the right with zeros, so ".5" is 500000 microseconds.
   */
  function FractionMicros(ds: seq<Digit>): (micros: nat)
    requires |ds| <= FRACTION_DIGITS
    ensures micros < MICROS_PER_SECOND
  {
    Pow10FractionDigits();
    DigitsValue(Padded(ds))
  }

  /** One zero more on the right multiplies the value by ten. */
  lemma {:induction false} DigitsValueZero(ds: seq<Digit>)
    ensures DigitsValue(ds + [0]) == DigitsValue(ds) * 10
  {
    assert (ds + [0])[..|ds|] == ds;
  }

  /** `k` zero digits. */
  function Zeros(k: nat): (z: seq<Digit>)
    ensures |z| == k && forall i | 0 <= i < k :: z[i] == 0
  {
    if k == 0 then [] else Zeros(k - 1) + [0]
  }

  /** `k` zeros on the right multiply the value by 10^k. */
  lemma {:induction false} DigitsValueZeros(ds: seq<Digit>, k: nat)
    ensures DigitsValue(ds + Zeros(k)) == DigitsValue(ds) * Pow10(k)
    decreases k
  {
    if k == 0 {
      assert ds + Zeros(k) == ds;
    } else {
      var shorter := ds + Zeros(k - 1);
      assert ds + Zeros(k) == shorter + [0];
      DigitsValueZero(shorter);
      DigitsValueZeros(ds, k - 1);
      MulTen(DigitsValue(ds), Pow10(k - 1));
    }
  }

  lemma MulTen(a: nat, p: nat)
    ensures a * p * 10 == a * (10 * p)
  {
  }

  /** The fractional digits stand for their value scaled to six digits. */
  lemma FractionMicrosScales(ds: seq<Digit>)
    requires |ds| <= FRACTION_DIGITS
    ensures FractionMicros(ds) == DigitsValue(ds) * Pow10(FRACTION_DIGITS - |ds|)
  {
    DigitsValueZeros(ds, FRACTION_DIGITS - |ds|);
  }

  /**
   * Reading a stored timestamp with the format "%Y-%m-%dT%H:%M:%S.%f": the
   * fractional part is mandatory and has one to six digits.  `None` is the
   * ValueError the parser raises otherwise.
   */
  function ParseStamp(text: StampText): (t: Option<nat>)
    ensures t.Some? <==>
      text.fraction.Some? && 1 <= |text.fraction.value| <= FRACTION_DIGITS
    ensures t.Some? ==> t.value / MICROS_PER_SECOND == text.seconds
    ensures t.Some? ==> t.value % MICROS_PER_SECOND == FractionMicros(text.fraction.value)
  {
    match text.fraction
    case None => None
    case Some(ds) =>
      if 1 <= |ds| <= FRACTION_DIGITS then
        var f := FractionMicros(ds);
        SplitMicros(text.seconds, f);
        Some(text.seconds * MICROS_PER_SECOND + f)
      else None
  }

  /** Whole seconds and microseconds recombine into a time they can be read back from. */
  lemma SplitMicros(seconds: nat, micros: nat)
    requires micros < MICROS_PER_SECOND
    ensures (seconds * MICROS_PER_SECOND + micros) / MICROS_PER_SECOND == seconds
    ensures (seconds * MICROS_PER_SECOND + micros) % MICROS_PER_SECOND == micros
  {
    var t := seconds * MICROS_PER_SECOND + micros;
    var q, r := t / MICROS_PER_SECOND, t % MICROS_PER_SECOND;
    assert t == q * MICROS_PER_SECOND + r;
    assert (q - seconds) * MICROS_PER_SECOND == micros - r;
  }

  /** A short fraction is padded: "...:05.5" is half a second past :05. */
  lemma ShortFractionPadded(seconds: nat)
    ensures ParseStamp(StampText(seconds, Some([5]))) == Some(seconds * MICROS_PER_SECOND + 500_000)
  {
    FractionMicrosScales([5]);
    assert DigitsValue([5]) == 5 by {
      assert [5][..0] == [];
    }
    assert Pow10(5) == 100_000 by {
      assert Pow10(2) == 100;
    }
  }

  /** Seven fractional digits are refused, even when the last is a zero. */
  lemma SevenDigitsRefused(seconds: nat)
    ensures ParseStamp(StampText(seconds, Some([1, 2, 3, 4, 5, 6, 0]))) == None
  {
  }

  /** The six-digit fractional part of a microsecond count. */
  function SixDigits(micros: nat): (ds: seq<Digit>)
    requires micros < MICROS_PER_SECOND
    ensures |ds| == FRACTION_DIGITS && DigitsValue(ds) == micros
  {
    Pow10FractionDigits();
    Digits(micros, FRACTION_DIGITS)
  }

  /** Six digits need no padding. */
  lemma FractionMicrosSix(ds: seq<Digit>)
    requires |ds| == FRACTION_DIGITS
    ensures FractionMicros(ds) == DigitsValue(ds)
  {
    assert Padded(ds) == ds;
  }

  /**
   * `utcnow().isoformat()`, which the client writes: the fractional part is
   * written, as six digits, only when the microsecond is not zero.
   */
  function IsoFormat(t: nat): (text: StampText)
    ensures text.seconds == t / MICROS_PER_SECOND
    ensures text.fraction.None? <==> t % MICROS_PER_SECOND == 0
    ensures text.fraction.Some? ==>
      |text.fraction.value| == FRACTION_DIGITS && DigitsValue(text.fraction.value) == t % MICROS_PER_SECOND
  {
    var micros := t % MICROS_PER_SECOND;
    StampText(t / MICROS_PER_SECOND, if micros == 0 then None else Some(SixDigits(micros)))
  }

  /** A time stamped on a whole second is written in a form the reader refuses. */
  lemma IsoFormatWholeSecondUnreadable(t: nat)
    requires t % MICROS_PER_SECOND == 0
    ensures ParseStamp(IsoFormat(t)) == None
  {
  }

  /** Concretely: a token store stamped at 2020-01-01T00:00:00 cannot be read back. */
  lemma IsoFormatCounterexample()
    ensures ParseStamp(IsoFormat(1_577_836_800 * MICROS_PER_SECOND)) == None
  {
    IsoFormatWholeSecondUnreadable(1_577_836_800 * MICROS_PER_SECOND);
  }

  /** Every other time reads back as itself. */
  lemma IsoFormatRoundTripOffSecond(t: nat)
    requires t % MICROS_PER_SECOND != 0
    ensures ParseStamp(IsoFormat(t)) == Some(t)
  {
    FractionMicrosSix(IsoFormat(t).fraction.value);
  }

  /**
   * The timestamp the client evidently means to write: always with the six
   * fractional digits that the reader's format demands
   * (`strftime("%Y-%m-%dT%H:%M:%S.%f")`).
   */
  function FormatStamp(t: nat): (text: StampText)
    ensures text.seconds == t / MICROS_PER_SECOND
    ensures text.fraction.Some? && |text.fraction.value| == FRACTION_DIGITS
    ensures DigitsValue(text.fraction.value) == t % MICROS_PER_SECOND
  {
    StampText(t / MICROS_PER_SECOND, Some(SixDigits(t % MICROS_PER_SECOND)))
  }

  /** Every time written by FormatStamp reads back exactly. */
  lemma FormatStampRoundTrip(t: nat)
    ensures ParseStamp(FormatStamp(t)) == Some(t)
  {
    FractionMicrosSix(FormatStamp(t).fraction.value);
  }

  /**
   * Which writer stamps a new store: `IsoFormatWriter` is the client's
   * `isoformat()`, `SixDigitWriter` the corrected one.
   */
  datatype StampWriter = IsoFormatWriter | SixDigitWriter

  function Stamp(writer: StampWriter, t: nat): StampText {
    match writer
    case IsoFormatWriter => IsoFormat(t)
    case SixDigitWriter => FormatStamp(t)
  }

  /**
   * A stamp reads back as its time except when `isoformat()` wrote it on a
   * whole second; then it cannot be read at all.
   */
  lemma StampReadsBack(writer: StampWriter, t: nat)
    ensures ParseStamp(Stamp(writer, t))
         == if writer.SixDigitWriter? || t % MICROS_PER_SECOND != 0 then Some(t) else None
  {
    if writer.SixDigitWriter? {
      FormatStampRoundTrip(t);
    } else if t % MICROS_PER_SECOND != 0 {
      IsoFormatRoundTripOffSecond(t);
    } else {
      IsoFormatWholeSecondUnreadable(t);
    }
  }
}
