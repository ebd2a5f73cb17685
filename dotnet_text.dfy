/**
 * The pieces of .NET text handling the editor core leans on: `String.Trim()`,
 * `Int32.ToString()` and `Int32.Parse(string)`, under the invariant culture.
 */
module DotNetText {
  import opened Wrappers

  /** A C# `int`. */
  newtype int32 = x: int | -0x8000_0000 <= x < 0x8000_0000

  /** Which characters a trimming operation strips. */
  datatype WhiteSet =
    | UnicodeWhite  // `char.IsWhiteSpace`, used by `String.Trim()`
    | NumberWhite   // the white space `NumberStyles.Integer` lets `Int32.Parse` skip

  predicate IsWhite(c: char, ws: WhiteSet) {
    var x := c as int;
    match ws
    case NumberWhite => 0x09 <= x <= 0x0D || x == 0x20
    case UnicodeWhite =>
      || 0x09 <= x <= 0x0D || x == 0x20 || x == 0x85 || x == 0xA0 || x == 0x1680
      || 0x2000 <= x <= 0x200A || x == 0x2028 || x == 0x2029 || x == 0x202F
      || x == 0x205F || x == 0x3000
  }

  /** The number of white characters at the front of `s`. */
  function LeadingWhite(s: string, ws: WhiteSet): (k: nat)
    ensures k <= |s|
    ensures k < |s| ==> !IsWhite(s[k], ws)
  {
    if |s| == 0 || !IsWhite(s[0], ws) then 0 else 1 + LeadingWhite(s[1..], ws)
  }

  /** `LeadingWhite` counts exactly the white run at the front. */
  lemma {:induction false} LeadingWhiteSpec(s: string, ws: WhiteSet)
    ensures forall j :: 0 <= j < LeadingWhite(s, ws) ==> IsWhite(s[j], ws)
    ensures LeadingWhite(s, ws) < |s| ==> !IsWhite(s[LeadingWhite(s, ws)], ws)
  {
    if |s| > 0 && IsWhite(s[0], ws) {
      LeadingWhiteSpec(s[1..], ws);
      forall j | 1 <= j < LeadingWhite(s, ws)
        ensures IsWhite(s[j], ws)
      {
        assert s[j] == s[1..][j - 1];
      }
    }
  }

  /** `s` without its leading and trailing white characters. */
  function TrimWith(s: string, ws: WhiteSet): (r: string)
    ensures |r| <= |s|
    ensures r != [] ==> !IsWhite(r[0], ws) && !IsWhite(r[|r| - 1], ws)
  {
    if |s| > 0 && IsWhite(s[0], ws) then TrimWith(s[1..], ws)
    else if |s| > 0 && IsWhite(s[|s| - 1], ws) then TrimWith(s[..|s| - 1], ws)
    else s
  }

  /** `TrimWith(s)` is the slice of `s` of its own length that starts after `LeadingWhite(s)` characters. */
  ghost predicate IsTrimSlice(s: string, ws: WhiteSet) {
    var r, a := TrimWith(s, ws), LeadingWhite(s, ws);
    a + |r| <= |s| && r == s[a..a + |r|]
  }

  /** A white first character: the slice of the rest, moved one place on. */
  lemma TrimSliceFront(s: string, ws: WhiteSet)
    requires |s| > 0 && IsWhite(s[0], ws)
    requires IsTrimSlice(s[1..], ws)
    ensures IsTrimSlice(s, ws)
  {
    var t := s[1..];
    var r, a := TrimWith(t, ws), LeadingWhite(t, ws);
    assert TrimWith(s, ws) == r && LeadingWhite(s, ws) == 1 + a;
    assert t[a..a + |r|] == s[1 + a..1 + a + |r|];
  }

  /** A white last character only: the slice of the rest, which starts at 0. */
  lemma TrimSliceBack(s: string, ws: WhiteSet)
    requires |s| > 0 && !IsWhite(s[0], ws) && IsWhite(s[|s| - 1], ws)
    requires IsTrimSlice(s[..|s| - 1], ws)
    ensures IsTrimSlice(s, ws)
  {
    var p := s[..|s| - 1];
    var r := TrimWith(p, ws);
    assert TrimWith(s, ws) == r && LeadingWhite(s, ws) == 0;
    assert LeadingWhite(p, ws) == 0;
    assert p[0..|r|] == s[0..|r|];
  }

  /** Trimming keeps the piece of `s` that starts after the leading white run. */
  lemma {:induction false} TrimSlice(s: string, ws: WhiteSet)
    ensures IsTrimSlice(s, ws)
  {
    if |s| > 0 && IsWhite(s[0], ws) {
      TrimSlice(s[1..], ws);
      TrimSliceFront(s, ws);
    } else if |s| > 0 && IsWhite(s[|s| - 1], ws) {
      TrimSlice(s[..|s| - 1], ws);
      TrimSliceBack(s, ws);
    } else {
      assert s[0..|s|] == s;
    }
  }

  /** Everything after the kept piece is white. */
  lemma {:induction false} TrimDropsWhite(s: string, ws: WhiteSet)
    ensures var r, a := TrimWith(s, ws), LeadingWhite(s, ws);
      forall j :: a + |r| <= j < |s| ==> IsWhite(s[j], ws)
  {
    var r := TrimWith(s, ws);
    if |s| > 0 && IsWhite(s[0], ws) {
      var t := s[1..];
      TrimDropsWhite(t, ws);
      var a := LeadingWhite(t, ws);
      forall j | 1 + a + |r| <= j < |s|
        ensures IsWhite(s[j], ws)
      {
        assert s[j] == t[j - 1];
      }
    } else if |s| > 0 && IsWhite(s[|s| - 1], ws) {
      var p := s[..|s| - 1];
      TrimDropsWhite(p, ws);
      assert LeadingWhite(p, ws) == 0;
      forall j | |r| <= j < |s| - 1
        ensures IsWhite(s[j], ws)
      {
        assert s[j] == p[j];
      }
    }
  }

  /**
   * Trimming keeps the piece of `s` that starts after the leading white run,
   * drops only white characters around it, and leaves no white at either end.
   */
  lemma TrimSpec(s: string, ws: WhiteSet)
    ensures var r, a := TrimWith(s, ws), LeadingWhite(s, ws);
      && a + |r| <= |s|
      && r == s[a..a + |r|]
      && (forall j :: 0 <= j < a ==> IsWhite(s[j], ws))
      && (forall j :: a + |r| <= j < |s| ==> IsWhite(s[j], ws))
      && (r != [] ==> !IsWhite(r[0], ws) && !IsWhite(r[|r| - 1], ws))
  {
    LeadingWhiteSpec(s, ws);
    TrimSlice(s, ws);
    TrimDropsWhite(s, ws);
  }

  /** `String.Trim()`. */
  function Trim(s: string): string {
    TrimWith(s, UnicodeWhite)
  }

  /** Trimming leaves nothing exactly when every character is white. */
  lemma TrimEmptyIffBlank(s: string, ws: WhiteSet)
    ensures TrimWith(s, ws) == [] <==> forall j :: 0 <= j < |s| ==> IsWhite(s[j], ws)
  {
    TrimSpec(s, ws);
    LeadingWhiteSpec(s, ws);
    var r, a := TrimWith(s, ws), LeadingWhite(s, ws);
    if r != [] {
      assert !IsWhite(s[a], ws);
    }
  }

  predicate IsDigit(c: char) {
    '0' <= c <= '9'
  }

  predicate AllDigits(s: string) {
    forall j :: 0 <= j < |s| ==> IsDigit(s[j])
  }

  function DigitChar(d: nat): (c: char)
    requires d < 10
    ensures IsDigit(c)
  {
    ('0' as int + d) as char
  }

  function DigitOf(c: char): (d: nat)
    requires IsDigit(c)
    ensures d < 10 && DigitChar(d) == c
  {
    c as int - '0' as int
  }

  /** The number a string of decimal digits denotes, most significant first; `None` if a character is not a digit. */
  function DigitsValue(s: string): Option<nat> {
    if |s| == 0 then Some(0)
    else if !IsDigit(s[|s| - 1]) then None
    else
      match DigitsValue(s[..|s| - 1])
      case None => None
      case Some(v) => Some(v * 10 + DigitOf(s[|s| - 1]))
  }

  /** `DigitsValue` accepts exactly the strings of digits. */
  lemma {:induction false} DigitsValueAccepts(s: string)
    ensures DigitsValue(s).Some? <==> AllDigits(s)
  {
    if |s| > 0 {
      var p := s[..|s| - 1];
      DigitsValueAccepts(p);
      if AllDigits(s) {
        assert forall j :: 0 <= j < |p| ==> p[j] == s[j];
      } else if IsDigit(s[|s| - 1]) {
        var j :| 0 <= j < |s| && !IsDigit(s[j]);
        assert p[j] == s[j];
      }
    }
  }

  /** The decimal digits of `n`, without leading zeros. */
  function NatToDecimal(n: nat): (s: string)
    ensures |s| > 0 && AllDigits(s)
    ensures |s| > 1 ==> s[0] != '0'
  {
    if n < 10 then [DigitChar(n)] else NatToDecimal(n / 10) + [DigitChar(n % 10)]
  }

  lemma {:induction false} DecimalRoundTrip(n: nat)
    ensures DigitsValue(NatToDecimal(n)) == Some(n)
  {
    if n >= 10 {
      var s := NatToDecimal(n);
      assert s[..|s| - 1] == NatToDecimal(n / 10);
      DecimalRoundTrip(n / 10);
    }
  }

  /** `Int32.ToString()`: an optional minus sign and the decimal digits. */
  function IntToString(i: int): (s: string)
    ensures |s| > 0
    ensures s[0] == '-' <==> i < 0
  {
    if i < 0 then "-" + NatToDecimal(-i) else NatToDecimal(i)
  }

  /** A sign, then the digits, of an already trimmed number. */
  function ParseSigned(t: string): Option<int32> {
    var negative := |t| > 0 && t[0] == '-';
    var digits := if |t| > 0 && (t[0] == '-' || t[0] == '+') then t[1..] else t;
    if |digits| == 0 then None
    else
      match DigitsValue(digits)
      case None => None
      case Some(magnitude) =>
        var m: int := magnitude;
        var v := if negative then -m else m;
        if -0x8000_0000 <= v < 0x8000_0000 then Some(v as int32) else None
  }

  /**
   * `Int32.Parse(s)` with `NumberStyles.Integer`: optional white space, an
   * optional sign, one or more decimal digits, optional white space, and a value
   * that fits in 32 bits. `None` stands for the `FormatException` or
   * `OverflowException` the library throws.
   */
  function ParseInt(s: string): Option<int32> {
    ParseSigned(TrimWith(s, NumberWhite))
  }

  /** Parsing what `Int32.ToString()` wrote gives the integer back. */
  lemma ParseIntRoundTrip(i: int32)
    ensures ParseInt(IntToString(i as int)) == Some(i)
  {
    var s := IntToString(i as int);
    if i < 0 {
      var d := NatToDecimal(-(i as int));
      assert s == "-" + d && s[1..] == d;
      assert IsDigit(d[|d| - 1]) && s[|s| - 1] == d[|d| - 1];
      DecimalRoundTrip(-(i as int));
    } else {
      var d := NatToDecimal(i as int);
      assert IsDigit(d[0]) && IsDigit(d[|d| - 1]);
      DecimalRoundTrip(i as int);
    }
    assert TrimWith(s, NumberWhite) == s;
  }

  /** What `Int32.Parse` accepts and rejects, on a few inputs. */
  lemma ParseIntExamples()
    ensures ParseInt(" 42 ") == Some(42)
    ensures ParseInt("+7") == Some(7)
    ensures ParseInt("-0") == Some(0)
    ensures ParseInt("") == None
    ensures ParseInt(" - ") == None
    ensures ParseInt("4 2") == None
  {
    assert TrimWith(" 42 ", NumberWhite) == TrimWith("42 ", NumberWhite) == TrimWith("42", NumberWhite) == "42";
    assert DigitsValue("42") == Some(42) by {
      assert "42"[..1] == "4";
      assert "4"[..0] == "";
    }
    assert "+7"[1..] == "7" && "7"[..0] == "";
    assert "-0"[1..] == "0" && "0"[..0] == "";
    assert TrimWith(" - ", NumberWhite) == TrimWith("- ", NumberWhite) == TrimWith("-", NumberWhite) == "-";
    assert "-"[1..] == "";
    assert "4 2"[..2] == "4 ";
  }
}
