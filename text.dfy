/**
 * Strings as the pages compare them: JavaScript's `String(x)` applied to an
 * identifier that may arrive as a number or as a string, `trim()` emptiness,
 * `toLowerCase()` (abstracted to ASCII case folding) and `includes`.
 */
module Text {

  /** An identifier as delivered by a remote endpoint: a JSON number or a JSON string. */
  datatype Id = Num(n: int) | Str(s: string)

  function DigitChar(d: nat): (c: char)
    requires d < 10
    ensures '0' <= c <= '9'
  {
    ('0' as int + d) as char
  }

  /** Decimal rendering of a natural number without leading zeros. */
  function NatToString(n: nat): (r: string)
    ensures |r| >= 1
    ensures forall i :: 0 <= i < |r| ==> '0' <= r[i] <= '9'
    ensures |r| > 1 ==> r[0] != '0'
  {
    if n < 10 then [DigitChar(n)] else NatToString(n / 10) + [DigitChar(n % 10)]
  }

  /** JavaScript's `String(n)` for an integral number. */
  function IntToString(n: int): string
  {
    if n < 0 then "-" + NatToString(-n) else NatToString(n)
  }

  /** JavaScript's `String(id)`: the canonical form under which ids are compared. */
  function JsString(id: Id): string
  {
    match id
    case Num(n) => IntToString(n)
    case Str(s) => s
  }

  /** `String(a) === String(b)` */
  predicate SameId(a: Id, b: Id)
  {
    JsString(a) == JsString(b)
  }

  /** A number of one digit renders as one character, a larger one as at least two. */
  lemma NatToStringLength(n: nat)
    ensures n < 10 ==> |NatToString(n)| == 1
    ensures n >= 10 ==> |NatToString(n)| >= 2
  {
    if n >= 10 {
      assert |NatToString(n)| == |NatToString(n / 10)| + 1;
    }
  }

  lemma {:induction false} NatToStringInjective(a: nat, b: nat)
    requires NatToString(a) == NatToString(b)
    ensures a == b
  {
    NatToStringLength(a);
    NatToStringLength(b);
    var ra, rb := NatToString(a), NatToString(b);
    if a < 10 && b < 10 {
      assert ra[0] == DigitChar(a) && rb[0] == DigitChar(b);
    } else if a >= 10 && b >= 10 {
      var qa, qb := a / 10, b / 10;
      var da, db := a % 10, b % 10;
      assert ra == NatToString(qa) + [DigitChar(da)];
      assert rb == NatToString(qb) + [DigitChar(db)];
      assert ra[..|ra| - 1] == NatToString(qa);
      assert rb[..|rb| - 1] == NatToString(qb);
      NatToStringInjective(qa, qb);
      assert DigitChar(da) == ra[|ra| - 1] == rb[|rb| - 1] == DigitChar(db);
      assert a == qa * 10 + da && b == qb * 10 + db;
    }
  }

  /** Two numeric ids match under `String` normalisation exactly when they are equal. */
  lemma NumericIdsMatchIffEqual(a: int, b: int)
    ensures SameId(Num(a), Num(b)) <==> a == b
  {
    if SameId(Num(a), Num(b)) {
      var sa, sb := IntToString(a), IntToString(b);
      assert sa == sb;
      if a < 0 && b < 0 {
        assert sa == "-" + NatToString(-a) && sb == "-" + NatToString(-b);
        assert sa[1..] == NatToString(-a) && sb[1..] == NatToString(-b);
        NatToStringInjective(-a, -b);
      } else if a >= 0 && b >= 0 {
        NatToStringInjective(a, b);
      }
    }
  }

  /**
   * A string id with a redundant leading zero or a `+` sign matches no numeric
   * id: `String(7)` is "7", never "007" or "+7".
   */
  lemma NonCanonicalStringMatchesNoNumber(n: int, s: string)
    requires (|s| > 1 && s[0] == '0') || (|s| > 0 && s[0] == '+')
    ensures !SameId(Num(n), Str(s))
  {
    if n >= 0 {
      var r := NatToString(n);
      assert |r| > 1 ==> r[0] != '0';
      assert '0' <= r[0] <= '9';
    } else {
      assert IntToString(n)[0] == '-';
    }
  }

  /** The characters ECMAScript's `String.prototype.trim` removes (WhiteSpace and LineTerminator). */
  predicate IsJsWhitespace(c: char)
  {
    c == '\t' || c == '\n' || c == '\U{B}' || c == '\U{C}' || c == '\r' || c == ' ' ||
    c == '\U{A0}' || c == '\U{1680}' || ('\U{2000}' <= c <= '\U{200A}') ||
    c == '\U{2028}' || c == '\U{2029}' || c == '\U{202F}' || c == '\U{205F}' ||
    c == '\U{3000}' || c == '\U{FEFF}'
  }

  /** `!s.trim()`: the trimmed string is empty, i.e. every character is whitespace. */
  predicate IsBlank(s: string)
  {
    forall i :: 0 <= i < |s| ==> IsJsWhitespace(s[i])
  }

  /** Drops the leading whitespace, as the first half of `trim`. */
  function TrimStart(s: string): string
  {
    if |s| > 0 && IsJsWhitespace(s[0]) then TrimStart(s[1..]) else s
  }

  /** Drops the trailing whitespace, as the second half of `trim`. */
  function TrimEnd(s: string): string
  {
    if |s| > 0 && IsJsWhitespace(s[|s| - 1]) then TrimEnd(s[..|s| - 1]) else s
  }

  /** `String.prototype.trim`. */
  function Trim(s: string): string
  {
    TrimEnd(TrimStart(s))
  }

  lemma {:induction false} TrimStartEmptyIffBlank(s: string)
    ensures TrimStart(s) == [] <==> IsBlank(s)
  {
    if |s| > 0 && IsJsWhitespace(s[0]) {
      TrimStartEmptyIffBlank(s[1..]);
      if IsBlank(s[1..]) {
        forall i | 0 <= i < |s| ensures IsJsWhitespace(s[i]) {
          if i > 0 {
            assert s[i] == s[1..][i - 1];
          }
        }
      } else {
        var i :| 0 <= i < |s[1..]| && !IsJsWhitespace(s[1..][i]);
        assert s[i + 1] == s[1..][i];
      }
    }
  }

  lemma {:induction false} TrimEndEmptyOnlyIfBlank(s: string)
    requires TrimEnd(s) == []
    ensures IsBlank(s)
  {
    if |s| > 0 {
      var init := s[..|s| - 1];
      TrimEndEmptyOnlyIfBlank(init);
      forall i | 0 <= i < |s| ensures IsJsWhitespace(s[i]) {
        if i < |s| - 1 {
          assert s[i] == init[i];
        }
      }
    }
  }

  /** `!s.trim()` holds exactly when every character of `s` is whitespace. */
  lemma BlankIffTrimEmpty(s: string)
    ensures Trim(s) == [] <==> IsBlank(s)
  {
    TrimStartEmptyIffBlank(s);
    var t := TrimStart(s);
    if Trim(s) == [] {
      TrimEndEmptyOnlyIfBlank(t);
      TrimStartEmptyIffBlank(t);
      if |t| > 0 {
        TrimStartKeepsNonBlankHead(s);
      }
    }
  }

  /** A non-empty result of `TrimStart` begins with a non-whitespace character. */
  lemma {:induction false} TrimStartKeepsNonBlankHead(s: string)
    ensures |TrimStart(s)| > 0 ==> !IsJsWhitespace(TrimStart(s)[0])
  {
    if |s| > 0 && IsJsWhitespace(s[0]) {
      TrimStartKeepsNonBlankHead(s[1..]);
    }
  }

  /** `toLowerCase` on one character, restricted to ASCII letters. */
  function LowerChar(c: char): char
  {
    if 'A' <= c <= 'Z' then (c as int + 32) as char else c
  }

  function Lower(s: string): string
  {
    seq(|s|, i requires 0 <= i < |s| => LowerChar(s[i]))
  }

  predicate IsPrefix(p: string, s: string)
  {
    |p| <= |s| && s[..|p|] == p
  }

  /** `hay.includes(needle)`, scanning start positions from the left. */
  predicate Contains(hay: string, needle: string)
    decreases |hay|
  {
    IsPrefix(needle, hay) || (|hay| > 0 && Contains(hay[1..], needle))
  }

  /** The needle occurs in the haystack starting at position `i`. */
  predicate OccursAt(hay: string, needle: string, i: int)
  {
    0 <= i && i + |needle| <= |hay| && hay[i..i + |needle|] == needle
  }

  lemma SliceOfTail(hay: string, lo: int, hi: int)
    requires |hay| > 0 && 0 <= lo <= hi <= |hay| - 1
    ensures hay[1..][lo..hi] == hay[lo + 1..hi + 1]
  {
    assert forall k :: 0 <= k < hi - lo ==> hay[1..][lo..hi][k] == hay[lo + 1..hi + 1][k];
  }

  /** `includes` holds exactly when the needle occurs at some position of the haystack. */
  lemma {:induction false} ContainsIff(hay: string, needle: string)
    ensures Contains(hay, needle) <==> exists i :: OccursAt(hay, needle, i)
    decreases |hay|
  {
    if IsPrefix(needle, hay) {
      assert OccursAt(hay, needle, 0);
    } else if |hay| > 0 {
      ContainsIff(hay[1..], needle);
      if Contains(hay[1..], needle) {
        var i :| OccursAt(hay[1..], needle, i);
        SliceOfTail(hay, i, i + |needle|);
        assert OccursAt(hay, needle, i + 1);
      } else {
        forall i | OccursAt(hay, needle, i)
          ensures false
        {
          if i > 0 {
            SliceOfTail(hay, i - 1, i - 1 + |needle|);
            assert OccursAt(hay[1..], needle, i - 1);
          }
        }
      }
    } else {
      // the empty haystack contains only the empty needle, which IsPrefix accepts
      forall i | OccursAt(hay, needle, i)
        ensures false
      {
      }
    }
  }

  /** `a.toLowerCase().includes(b.toLowerCase())` */
  predicate ContainsIgnoringCase(hay: string, needle: string)
  {
    Contains(Lower(hay), Lower(needle))
  }

  /** `a.toLowerCase() === b.toLowerCase()` */
  predicate EqualsIgnoringCase(a: string, b: string)
  {
    Lower(a) == Lower(b)
  }
}
