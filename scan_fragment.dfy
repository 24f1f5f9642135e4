/**
 * `ScanFragment`: choosing the decoder's sample size when a gallery image is
 * shrunk to at most `maxDim` pixels a side, the clamped output size, and the
 * name of a captured image file.
 */
module ScanScreen {
  import opened Ints
  import opened Text

  predicate IsPowerOfTwo(n: int)
    decreases n
  {
    n == 1 || (n > 1 && n % 2 == 0 && IsPowerOfTwo(n / 2))
  }

  /** Between a power of two and its double there is no other power of two. */
  lemma {:induction false} PowerOfTwoGap(p: int, s: int)
    requires IsPowerOfTwo(p) && IsPowerOfTwo(s) && s < p
    ensures 2 * s <= p
    decreases p
  {
    if s > 1 {
      PowerOfTwoGap(p / 2, s / 2);
    }
  }

  /** `w / scale > maxDim || h / scale > maxDim`, with JVM division. */
  predicate TooLarge(w: int32, h: int32, scale: int, maxDim: int32)
    requires scale > 0
  {
    TruncDiv(w, scale) > maxDim || TruncDiv(h, scale) > maxDim
  }

  lemma QuotientBound(w: int, scale: int, maxDim: int)
    requires scale > 0 && maxDim >= 1 && TruncDiv(w, scale) > maxDim
    ensures 2 * scale <= w
  {
    assert w >= 0;
    assert w / scale >= 2;
    assert w == (w / scale) * scale + w % scale;
    assert (w / scale) * scale >= 2 * scale;
  }

  /** Every power of two below `scale` is too small. */
  predicate NoSmallerFits(w: int32, h: int32, scale: int, maxDim: int32) {
    forall p :: 1 <= p < scale && IsPowerOfTwo(p) ==> TooLarge(w, h, p, maxDim)
  }

  /** One doubling keeps the loop's invariant and stays within 32 bits. */
  lemma DoublingStep(w: int32, h: int32, scale: int, maxDim: int32)
    requires maxDim >= 1 && IsPowerOfTwo(scale) && scale >= 1
    requires NoSmallerFits(w, h, scale, maxDim) && TooLarge(w, h, scale, maxDim)
    ensures 2 * scale < TWO_31 && IsPowerOfTwo(2 * scale) && NoSmallerFits(w, h, 2 * scale, maxDim)
  {
    if TruncDiv(w, scale) > maxDim {
      QuotientBound(w, scale, maxDim);
    } else {
      QuotientBound(h, scale, maxDim);
    }
    assert (2 * scale) / 2 == scale;
    forall p | 1 <= p < 2 * scale && IsPowerOfTwo(p) ensures TooLarge(w, h, p, maxDim) {
      if p > scale {
        PowerOfTwoGap(p, scale);
      }
    }
  }

  /**
   * The loop `while (w / scale > maxDim || h / scale > maxDim) scale *= 2` of
   * `compressImageTo`. Its only caller passes `maxDim = 1024`; the model asks
   * for a positive bound, under which the 32-bit `scale` never overflows.
   */
  method SampleSize(w: int32, h: int32, maxDim: int32) returns (scale: int32)
    requires maxDim >= 1
    ensures IsPowerOfTwo(scale) && scale >= 1
    ensures !TooLarge(w, h, scale, maxDim)
    // the least such power of two
    ensures NoSmallerFits(w, h, scale, maxDim)
    ensures w <= maxDim && h <= maxDim ==> scale == 1
  {
    scale := 1;
    while TooLarge(w, h, scale, maxDim)
      invariant IsPowerOfTwo(scale) && scale >= 1
      invariant NoSmallerFits(w, h, scale, maxDim)
      decreases TWO_31 - scale
    {
      DoublingStep(w, h, scale, maxDim);
      scale := scale * 2;
    }
    assert IsPowerOfTwo(1);
  }

  /** `coerceAtMost(maxDim)`. */
  function CoerceAtMost(x: int32, maxDim: int32): (r: int32)
    ensures r <= maxDim && r <= x
    ensures r == x || r == maxDim
  {
    if x > maxDim then maxDim else x
  }

  /** The size handed to `createScaledBitmap`: each side of the decoded bitmap, capped at `maxDim`. */
  function ScaledSize(width: int32, height: int32, maxDim: int32): (r: (int32, int32))
    ensures r.0 == CoerceAtMost(width, maxDim) && r.1 == CoerceAtMost(height, maxDim)
  {
    (CoerceAtMost(width, maxDim), CoerceAtMost(height, maxDim))
  }

  /** A side within the bound is kept; scaling an already scaled size changes nothing. */
  lemma ScaledSizeStable(width: int32, height: int32, maxDim: int32)
    ensures width <= maxDim && height <= maxDim ==> ScaledSize(width, height, maxDim) == (width, height)
    ensures var r := ScaledSize(width, height, maxDim); ScaledSize(r.0, r.1, maxDim) == r
  {
  }

  /** A moment as `SimpleDateFormat` sees it, in the device's time zone. */
  datatype DateTime = DateTime(year: nat, month: nat, day: nat, hour: nat, minute: nat, second: nat)

  predicate ValidDateTime(t: DateTime) {
    1 <= t.month <= 12 && 1 <= t.day <= 31 && t.hour < 24 && t.minute < 60 && t.second < 60
  }

  /** `n` in decimal, left-padded with zeros to at least `width` digits. */
  function Padded(n: nat, width: nat): (r: string)
    ensures |r| >= width && |r| >= |NatText(n)|
    ensures forall i :: 0 <= i < |r| ==> IsDigit(r[i])
    decreases width
  {
    if |NatText(n)| >= width then NatText(n) else "0" + Padded(n, width - 1)
  }

  /** A leading zero does not change the value of a digit string. */
  lemma {:induction false} LeadingZeroValue(s: string)
    requires forall i :: 0 <= i < |s| ==> IsDigit(s[i])
    ensures DigitsValue("0" + s) == DigitsValue(s)
  {
    if s != [] {
      var z := "0" + s;
      assert z[..|z| - 1] == "0" + s[..|s| - 1];
      LeadingZeroValue(s[..|s| - 1]);
    } else {
      assert ("0" + s)[..0] == [];
    }
  }

  /** Zero padding keeps the number: the padded text reads back as `n`. */
  lemma {:induction false} PaddedValue(n: nat, width: nat)
    ensures DigitsValue(Padded(n, width)) == n
    decreases width
  {
    if |NatText(n)| >= width {
      NatTextValue(n);
    } else {
      PaddedValue(n, width - 1);
      LeadingZeroValue(Padded(n, width - 1));
    }
  }

  /** `yyyyMMdd_HHmmss`. */
  function TimeStamp(t: DateTime): string {
    Padded(t.year, 4) + Padded(t.month, 2) + Padded(t.day, 2) + "_" + Padded(t.hour, 2) + Padded(t.minute, 2) + Padded(t.second, 2)
  }

  /** The name `createImageFile` gives a capture, in the cache directory. */
  function CaptureFileName(t: DateTime): string {
    "SCAN_" + TimeStamp(t) + ".jpg"
  }

  lemma PaddedTwoDigits(n: nat)
    requires n < 100
    ensures |Padded(n, 2)| == 2
  {
    if n >= 10 {
      assert NatText(n) == NatText(n / 10) + [DigitChar(n % 10)];
    }
  }

  lemma PaddedFourDigits(n: nat)
    requires n < 10000
    ensures |Padded(n, 4)| == 4
  {
    if n >= 1000 {
      assert NatText(n) == NatText(n / 10) + [DigitChar(n % 10)];
      assert |NatText(n / 10)| == 3 by {
        var m := n / 10;
        assert NatText(m) == NatText(m / 10) + [DigitChar(m % 10)];
        assert NatText(m / 10) == NatText(m / 100) + [DigitChar((m / 10) % 10)];
      }
    } else if n >= 100 {
      assert NatText(n) == NatText(n / 10) + [DigitChar(n % 10)];
      assert NatText(n / 10) == NatText(n / 100) + [DigitChar((n / 10) % 10)];
    } else if n >= 10 {
      assert NatText(n) == NatText(n / 10) + [DigitChar(n % 10)];
    }
  }

  /**
   * Within years 0 to 9999 a capture name has the form
   * `SCAN_yyyyMMdd_HHmmss.jpg`: 24 characters, digits where the pattern has
   * letters, and each field of the time read back from its digits.
   */
  lemma CaptureFileNameShape(t: DateTime)
    requires ValidDateTime(t) && t.year < 10000
    ensures var name := CaptureFileName(t);
            |name| == 24 && StartsWith(name, "SCAN_") && EndsWith(name, ".jpg") && name[13] == '_'
            && (forall i :: 5 <= i < 20 && i != 13 ==> IsDigit(name[i]))
            && DigitsValue(name[5..9]) == t.year && DigitsValue(name[9..11]) == t.month
            && DigitsValue(name[11..13]) == t.day && DigitsValue(name[14..16]) == t.hour
            && DigitsValue(name[16..18]) == t.minute && DigitsValue(name[18..20]) == t.second
  {
    PaddedFourDigits(t.year);
    PaddedTwoDigits(t.month);
    PaddedTwoDigits(t.day);
    PaddedTwoDigits(t.hour);
    PaddedTwoDigits(t.minute);
    PaddedTwoDigits(t.second);
    var ts := TimeStamp(t);
    assert |ts| == 15;
    var name := CaptureFileName(t);
    assert name[5..20] == ts;
    assert name[..5] == "SCAN_";
    assert name[20..] == ".jpg";
    forall i | 5 <= i < 20 && i != 13 ensures IsDigit(name[i]) {
      assert name[i] == ts[i - 5];
    }
    assert name[5..9] == Padded(t.year, 4) && name[9..11] == Padded(t.month, 2) && name[11..13] == Padded(t.day, 2);
    assert name[14..16] == Padded(t.hour, 2) && name[16..18] == Padded(t.minute, 2) && name[18..20] == Padded(t.second, 2);
    PaddedValue(t.year, 4);
    PaddedValue(t.month, 2);
    PaddedValue(t.day, 2);
    PaddedValue(t.hour, 2);
    PaddedValue(t.minute, 2);
    PaddedValue(t.second, 2);
  }

  /** Two captures taken at different times get different names. */
  lemma CaptureFileNameInjective(t: DateTime, t': DateTime)
    requires ValidDateTime(t) && t.year < 10000 && ValidDateTime(t') && t'.year < 10000
    requires CaptureFileName(t) == CaptureFileName(t')
    ensures t == t'
  {
    CaptureFileNameShape(t);
    CaptureFileNameShape(t');
  }
}
