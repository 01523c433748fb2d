/** The column roles of a calibration matrix (`process_sheet_data`, lines
    136-153): the first column holds base heights, and every later column
    whose header is a number holds the values at base height + that offset. */
module MatrixColumns {
  import opened Base
  import opened PyText
  import opened PyNumber

  /** What a column of a matrix sheet holds. */
  datatype Role = BaseHeight | Offset(increment: real) | Ignored

  predicate IsSeparator(c: char) {
    c == '.' || c == ','
  }

  /** `t` is a decimal numeral whose one separator ('.' or ',') stands at `k`. */
  ghost predicate SeparatorAt(t: string, k: int) {
    && 0 <= k < |t| && |t| > 1 && IsSeparator(t[k])
    && AllDigits(t[..k]) && AllDigits(t[k + 1..])
  }

  /** The offset a header denotes: digits with at most one separator ('.' or
      ','), at least one digit, after stripping whitespace. */
  ghost predicate OffsetNumeral(t: string, x: real) {
    || (IsDigitString(t) && x == DigitsValue(t) as real)
    || exists k :: SeparatorAt(t, k) && x == PointValue(t[..k], t[k + 1..])
  }

  /** The offset an offset column's header announces, if it is one: the
      stripped header must be digits once '.' and ',' are removed (or be "0"
      or "0.0"), and must then be accepted by `float()` after ',' becomes '.';
      a header such as "1.2.3" passes the first test but not the second and
      is dropped. */
  function OffsetOf(header: string): Option<real> {
    var t := Strip(header);
    if IsDigitString(Remove(Remove(t, '.'), ',')) || t == "0" || t == "0.0" then
      ParseNumber(Replace(t, ',', '.'))
    else None
  }

  /** The characters of `t` are digits and separators, and one is a digit. */
  ghost predicate DigitsAndSeparators(t: string) {
    && (forall k :: 0 <= k < |t| ==> IsDigit(t[k]) || IsSeparator(t[k]))
    && exists k :: 0 <= k < |t| && IsDigit(t[k])
  }

  /** The header test of the source, in terms of the characters of `t`. */
  lemma RemovedDigits(t: string)
    ensures IsDigitString(Remove(Remove(t, '.'), ',')) <==> DigitsAndSeparators(t)
  {
    var r := Remove(Remove(t, '.'), ',');
    assert forall x :: x in r <==> x in t && !IsSeparator(x);
    if IsDigitString(r) {
      forall k | 0 <= k < |t| ensures IsDigit(t[k]) || IsSeparator(t[k]) {
        if !IsSeparator(t[k]) {
          assert t[k] in r;
        }
      }
      assert r[0] in t;
    }
    if DigitsAndSeparators(t) {
      var k :| 0 <= k < |t| && IsDigit(t[k]);
      assert t[k] in r;
      forall j | 0 <= j < |r| ensures IsDigit(r[j]) {
        assert r[j] in t;
      }
    }
  }

  /** A numeral of digits and separators parses iff it has at most one
      separator, and its value is the digits around that separator. */
  lemma OffsetParse(t: string)
    requires DigitsAndSeparators(t)
    ensures var v := ParseNumber(Replace(t, ',', '.'));
            && (v.Some? <==> IsDigitString(t) || exists k :: SeparatorAt(t, k))
            && (v.Some? ==> OffsetNumeral(t, v.value))
  {
    var u := Replace(t, ',', '.');
    NormalisedUnsigned(t, u);
    UnsignedOffset(t, u);
  }

  /** The normalised header has a digit or '.' at each end and no sign, so
      `float()` reads it as an unsigned numeral. */
  lemma NormalisedUnsigned(t: string, u: string)
    requires DigitsAndSeparators(t) && u == Replace(t, ',', '.')
    ensures ParseNumber(u) == ParseUnsigned(u)
  {
    var j :| 0 <= j < |t| && IsDigit(t[j]);
    assert !IsSpace(u[0]) && !IsSpace(u[|u| - 1]) && u[0] != '+' && u[0] != '-';
    ParseUnsignedText(u);
  }

  /** `OffsetParse` for the unsigned reading of the normalised header. */
  lemma UnsignedOffset(t: string, u: string)
    requires DigitsAndSeparators(t) && u == Replace(t, ',', '.')
    ensures var v := ParseUnsigned(u);
            && (v.Some? <==> IsDigitString(t) || exists k :: SeparatorAt(t, k))
            && (v.Some? ==> OffsetNumeral(t, v.value))
  {
    var k := IndexOf(u, '.');
    if k == |u| {
      NoSeparatorParse(t, u);
    } else {
      assert u[..k] == t[..k] by {
        forall i | 0 <= i < k ensures u[i] == t[i] {
          assert u[i] != '.';
        }
      }
      SeparatedParse(t, u, k);
    }
  }

  /** The case of `OffsetParse` where the normalised text has no '.': the
      text is a plain digit string. */
  lemma NoSeparatorParse(t: string, u: string)
    requires DigitsAndSeparators(t) && u == Replace(t, ',', '.')
    requires IndexOf(u, '.') == |u|
    ensures u == t && IsDigitString(t)
    ensures forall k' :: !SeparatorAt(t, k')
  {
    forall i | 0 <= i < |t| ensures u[i] == t[i] && IsDigit(t[i]) {
      assert u[i] != '.';
    }
    forall k' | 0 <= k' < |t| ensures !SeparatorAt(t, k') {
      assert u[k'] != '.';
    }
  }

  /** The case of `OffsetParse` where the normalised text has its first '.'
      at `k`. */
  lemma SeparatedParse(t: string, u: string, k: nat)
    requires DigitsAndSeparators(t) && u == Replace(t, ',', '.')
    requires k < |u| && k == IndexOf(u, '.') && u[..k] == t[..k] && AllDigits(t[..k])
    ensures var v := ParseUnsigned(u);
            && (v.Some? <==> IsDigitString(t) || exists k :: SeparatorAt(t, k))
            && (v.Some? ==> OffsetNumeral(t, v.value))
  {
    assert IsSeparator(t[k]);
    assert !IsDigitString(t) by {
      assert !IsDigit(t[k]);
    }
    if AllDigits(u[k + 1..]) {
      SeparatedAccepted(t, u, k);
    } else {
      SeparatedRejected(t, u, k);
    }
  }

  lemma SeparatedAccepted(t: string, u: string, k: nat)
    requires DigitsAndSeparators(t) && u == Replace(t, ',', '.')
    requires k < |u| && k == IndexOf(u, '.') && u[..k] == t[..k] && AllDigits(t[..k])
    requires AllDigits(u[k + 1..])
    ensures SeparatorAt(t, k)
    ensures ParseUnsigned(u) == Some(PointValue(t[..k], t[k + 1..]))
  {
    assert u[k + 1..] == t[k + 1..] by {
      forall i | k + 1 <= i < |t| ensures u[i] == t[i] {
        assert u[k + 1..][i - k - 1] == u[i];
        assert IsDigit(u[i]);
      }
    }
    var j :| 0 <= j < |t| && IsDigit(t[j]);
    assert j != k;
  }

  lemma SeparatedRejected(t: string, u: string, k: nat)
    requires DigitsAndSeparators(t) && u == Replace(t, ',', '.')
    requires k < |u| && k == IndexOf(u, '.') && u[..k] == t[..k] && AllDigits(t[..k])
    requires !AllDigits(u[k + 1..])
    ensures ParseUnsigned(u).None?
    ensures forall k' :: !SeparatorAt(t, k')
  {
    var i :| 0 <= i < |u[k + 1..]| && !IsDigit(u[k + 1..][i]);
    var m := k + 1 + i;
    assert u[m] == u[k + 1..][i];
    assert IsSeparator(t[k]) && IsSeparator(t[m]);
    TwoSeparators(t, k, m);
  }

  /** A text with two separators is not a numeral with one. */
  lemma TwoSeparators(t: string, k: nat, m: nat)
    requires k < m < |t| && IsSeparator(t[k]) && IsSeparator(t[m])
    ensures forall k' :: !SeparatorAt(t, k')
  {
    forall k' | 0 <= k' < |t| ensures !SeparatorAt(t, k') {
      if k' < k {
        assert !AllDigits(t[k' + 1..]) by {
          assert t[k' + 1..][k - k' - 1] == t[k];
        }
      } else if k' == k {
        assert !AllDigits(t[k + 1..]) by {
          assert t[k + 1..][m - k - 1] == t[m];
        }
      } else {
        assert !AllDigits(t[..k']) by {
          assert t[..k'][k] == t[k];
        }
      }
    }
  }

  /** Which headers are offset columns, and what increment each announces. */
  lemma OffsetOfMeaning(header: string)
    ensures var t := Strip(header);
            && (OffsetOf(header).Some? <==> IsDigitString(t) || exists k :: SeparatorAt(t, k))
            && (OffsetOf(header).Some? ==> OffsetNumeral(t, OffsetOf(header).value))
  {
    var t := Strip(header);
    RemovedDigits(t);
    SpecialHeaders(t);
    assert OffsetOf(header) == if DigitsAndSeparators(t) then ParseNumber(Replace(t, ',', '.')) else None;
    if DigitsAndSeparators(t) {
      OffsetParse(t);
    } else {
      NumeralChars(t);
    }
  }

  /** The headers "0" and "0.0", which the source also lets through by name,
      already pass the digit test. */
  lemma SpecialHeaders(t: string)
    ensures t == "0" || t == "0.0" ==> DigitsAndSeparators(t)
  {
    if t == "0" || t == "0.0" {
      assert IsDigit(t[0]);
    }
  }

  /** A numeral is made of digits and separators. */
  lemma NumeralChars(t: string)
    ensures (IsDigitString(t) || exists k :: SeparatorAt(t, k)) ==> DigitsAndSeparators(t)
  {
    if IsDigitString(t) {
      assert IsDigit(t[0]);
    } else if exists k :: SeparatorAt(t, k) {
      var k :| SeparatorAt(t, k);
      if k == 0 {
        assert t[k + 1..][0] == t[1];
      } else {
        assert t[..k][0] == t[0];
      }
      forall i | 0 <= i < |t| ensures IsDigit(t[i]) || IsSeparator(t[i]) {
        if i < k {
          assert t[..k][i] == t[i];
        } else if i > k {
          assert t[k + 1..][i - k - 1] == t[i];
        }
      }
    }
  }

  /** The roles of a sheet's columns: the first holds the base heights, and
      every later column whose stripped header is a decimal numeral is an
      offset column with that numeral's value; the rest are ignored. */
  function Classify(headers: seq<string>): (roles: seq<Role>)
    ensures |roles| == |headers|
    ensures |headers| > 0 ==> roles[0] == BaseHeight
    ensures forall j :: 0 < j < |headers| ==> roles[j] != BaseHeight
    ensures forall j :: 0 < j < |headers| ==>
              (roles[j].Offset? <==> IsDigitString(Strip(headers[j])) || exists k :: SeparatorAt(Strip(headers[j]), k))
    ensures forall j :: 0 < j < |headers| && roles[j].Offset? ==> OffsetNumeral(Strip(headers[j]), roles[j].increment)
  {
    forall j | 0 < j < |headers| {
      OffsetOfMeaning(headers[j]);
    }
    seq(|headers|, j requires 0 <= j < |headers| =>
      if j == 0 then BaseHeight
      else match OffsetOf(headers[j])
        case Some(x) => Offset(x)
        case None => Ignored)
  }
}
