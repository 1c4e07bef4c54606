/** The handful of JavaScript string operations the capture scripts rely on:
    `String.prototype.split` with a one-character separator, `Array.prototype.join`,
    `slice`, `startsWith`, `parseInt(s, 10)`, the `a || b` fallback between two
    optional text fields, and the decimal text of a number. */
module JsText {
  import opened Common

  // ---------------------------------------------------------------------------
  // split / join

  /** `s.split(c)`: the maximal separator-free pieces, empty ones included;
      `"".split(c)` is `[""]`. */
  function Split(s: string, c: char): (parts: seq<string>)
    ensures |parts| >= 1
    decreases |s|
  {
    if |s| == 0 then [""]
    else
      var rest := Split(s[1..], c);
      if s[0] == c then [""] + rest
      else [[s[0]] + rest[0]] + rest[1..]
  }

  /** `parts.join(c)`. */
  function Join(parts: seq<string>, c: char): string
  {
    if |parts| == 0 then ""
    else if |parts| == 1 then parts[0]
    else parts[0] + [c] + Join(parts[1..], c)
  }

  /** `parts[i]`, which is `undefined` past the end. */
  function Field(parts: seq<string>, i: nat): (r: Option<string>)
    ensures r.Some? <==> i < |parts|
    ensures r.Some? ==> r.value == parts[i]
  {
    if i < |parts| then Some(parts[i]) else None
  }

  /** `xs.slice(-1)[0]` on a non-empty list. */
  function Last<T>(xs: seq<T>): T
    requires |xs| > 0
  {
    xs[|xs| - 1]
  }

  /** `xs.slice(from, to)` for non-negative bounds. */
  function Slice<T>(xs: seq<T>, from: nat, to: nat): (r: seq<T>)
    requires from <= to
    ensures |r| <= to - from
    ensures |xs| <= from ==> r == []
    ensures from <= |xs| ==> r == xs[from..if to <= |xs| then to else |xs|]
  {
    var lo := if from <= |xs| then from else |xs|;
    var hi := if to <= |xs| then to else |xs|;
    xs[lo..hi]
  }

  predicate Free(s: string, c: char)
  {
    forall i :: 0 <= i < |s| ==> s[i] != c
  }

  predicate StartsWith(s: string, prefix: string)
  {
    |prefix| <= |s| && s[..|prefix|] == prefix
  }

  /** JavaScript truthiness of an optional string: defined and non-empty. */
  predicate Truthy(o: Option<string>)
  {
    o.Some? && o.value != ""
  }

  /** `a || b` on two optional text fields. */
  function Or(a: Option<string>, b: Option<string>): (r: Option<string>)
    ensures Truthy(a) ==> r == a
    ensures !Truthy(a) ==> r == b
  {
    if Truthy(a) then a else b
  }

  lemma {:induction false} SplitPartsFree(s: string, c: char)
    ensures forall i :: 0 <= i < |Split(s, c)| ==> Free(Split(s, c)[i], c)
    decreases |s|
  {
    if |s| > 0 {
      SplitPartsFree(s[1..], c);
      var rest := Split(s[1..], c);
      if s[0] != c {
        assert Free(rest[0], c);
        assert Free([s[0]] + rest[0], c) by {
          forall i | 0 <= i < |[s[0]] + rest[0]| ensures ([s[0]] + rest[0])[i] != c {
            if i > 0 { assert ([s[0]] + rest[0])[i] == rest[0][i - 1]; }
          }
        }
      }
    }
  }

  /** A separator-free text splits into itself. */
  lemma {:induction false} SplitFree(s: string, c: char)
    requires Free(s, c)
    ensures Split(s, c) == [s]
    decreases |s|
  {
    if |s| > 0 {
      SplitFree(s[1..], c);
      assert [s[0]] + s[1..] == s;
    }
  }

  /** Splitting at the first separator. */
  lemma {:induction false} SplitAtFirst(x: string, c: char, y: string)
    requires Free(x, c)
    ensures Split(x + [c] + y, c) == [x] + Split(y, c)
    decreases |x|
  {
    var s := x + [c] + y;
    if |x| == 0 {
      assert s[0] == c && s[1..] == y;
    } else {
      assert s[0] == x[0];
      assert s[1..] == x[1..] + [c] + y;
      SplitAtFirst(x[1..], c, y);
      assert [x[0]] + x[1..] == x;
    }
  }

  /** `join` then `split` gives back the pieces when none holds the separator. */
  lemma {:induction false} SplitJoin(parts: seq<string>, c: char)
    requires |parts| >= 1
    requires forall i :: 0 <= i < |parts| ==> Free(parts[i], c)
    ensures Split(Join(parts, c), c) == parts
    decreases |parts|
  {
    if |parts| == 1 {
      SplitFree(parts[0], c);
    } else {
      SplitJoin(parts[1..], c);
      SplitAtFirst(parts[0], c, Join(parts[1..], c));
      assert [parts[0]] + parts[1..] == parts;
    }
  }

  /** `split` then `join` gives back the text. */
  lemma {:induction false} JoinSplit(s: string, c: char)
    ensures Join(Split(s, c), c) == s
    decreases |s|
  {
    if |s| > 0 {
      JoinSplit(s[1..], c);
      var rest := Split(s[1..], c);
      if s[0] == c {
        assert Split(s, c) == [""] + rest;
        assert ([""] + rest)[1..] == rest;
      } else {
        var parts := Split(s, c);
        assert parts == [[s[0]] + rest[0]] + rest[1..];
        if |rest| == 1 {
          assert Join(parts, c) == [s[0]] + rest[0];
        } else {
          assert parts[1..] == rest[1..];
          assert Join(rest, c) == rest[0] + [c] + Join(rest[1..], c);
          assert Join(parts, c) == [s[0]] + rest[0] + [c] + Join(rest[1..], c);
        }
      }
    }
  }

  lemma {:induction false} JoinSnoc(parts: seq<string>, last: string, c: char)
    requires |parts| >= 1
    ensures Join(parts + [last], c) == Join(parts, c) + [c] + last
    decreases |parts|
  {
    if |parts| == 1 {
      assert (parts + [last])[1..] == [last];
    } else {
      assert (parts + [last])[1..] == parts[1..] + [last];
      JoinSnoc(parts[1..], last, c);
    }
  }

  // ---------------------------------------------------------------------------
  // parseInt(s, 10)

  /** The white space and line terminators `parseInt` skips before the number. */
  predicate IsJsSpace(ch: char)
  {
    ch == ' ' || ch == '\t' || ch == '\n' || ch == '\r' || ch == '\U{0B}' || ch == '\U{0C}'
    || ch == '\U{A0}' || ch == '\U{FEFF}' || ch == '\U{1680}' || ('\U{2000}' <= ch <= '\U{200A}')
    || ch == '\U{2028}' || ch == '\U{2029}' || ch == '\U{202F}' || ch == '\U{205F}' || ch == '\U{3000}'
  }

  predicate IsDigit(ch: char)
  {
    '0' <= ch <= '9'
  }

  function DigitValue(ch: char): (d: nat)
    requires IsDigit(ch)
    ensures d < 10
  {
    (ch as int) - ('0' as int)
  }

  function DigitChar(d: nat): (ch: char)
    requires d < 10
    ensures IsDigit(ch) && DigitValue(ch) == d
  {
    (('0' as int) + d) as char
  }

  predicate AllDigits(s: string)
  {
    forall i :: 0 <= i < |s| ==> IsDigit(s[i])
  }

  function TrimStart(s: string): (r: string)
    ensures |r| <= |s| && r == s[|s| - |r|..]
    ensures |r| > 0 ==> !IsJsSpace(r[0])
  {
    if |s| > 0 && IsJsSpace(s[0]) then TrimStart(s[1..]) else s
  }

  /** The longest prefix made of decimal digits. */
  function DigitPrefix(s: string): (r: string)
    ensures |r| <= |s| && r == s[..|r|] && AllDigits(r)
    ensures |r| < |s| ==> !IsDigit(s[|r|])
  {
    if |s| == 0 || !IsDigit(s[0]) then "" else [s[0]] + DigitPrefix(s[1..])
  }

  /** The value of a string of decimal digits, most significant first. */
  function DecimalValue(ds: string): nat
    requires AllDigits(ds)
  {
    if |ds| == 0 then 0 else DecimalValue(ds[..|ds| - 1]) * 10 + DigitValue(ds[|ds| - 1])
  }

  /** `parseInt(s, 10)`: skip leading white space, take an optional sign, then the
      longest run of digits; `None` is `NaN` (no digit at all). */
  function ParseInt(s: string): (r: Option<int>)
    ensures r.Some? ==> exists i :: 0 <= i < |s| && IsDigit(s[i])
  {
    var t := TrimStart(s);
    var negative := |t| > 0 && t[0] == '-';
    var body := if |t| > 0 && (t[0] == '-' || t[0] == '+') then t[1..] else t;
    var digits := DigitPrefix(body);
    if |digits| == 0 then None
    else
      assert IsDigit(s[|s| - |t| + (|t| - |body|)]);
      var magnitude: int := DecimalValue(digits);
      Some(if negative then -magnitude else magnitude)
  }

  /** `parseInt(x, 10)` where `x` may be `undefined` (read as the text "undefined", which has no digit). */
  function ParseIntField(o: Option<string>): Option<int>
  {
    match o
    case None => None
    case Some(s) => ParseInt(s)
  }

  // ---------------------------------------------------------------------------
  // decimal text of numbers (template literals `${n}`)

  function DecimalText(n: nat): (r: string)
    ensures |r| >= 1 && AllDigits(r)
  {
    if n < 10 then [DigitChar(n)] else DecimalText(n / 10) + [DigitChar(n % 10)]
  }

  function IntText(i: int): (r: string)
    ensures |r| >= 1 && IsDigit(r[|r| - 1])
  {
    if i < 0 then "-" + DecimalText(-i) else DecimalText(i)
  }

  lemma {:induction false} DecimalValueOfText(n: nat)
    ensures DecimalValue(DecimalText(n)) == n
    decreases n
  {
    if n >= 10 {
      DecimalValueOfText(n / 10);
      var t := DecimalText(n);
      assert t[..|t| - 1] == DecimalText(n / 10);
    }
  }

  lemma DigitIsNoSpace(ch: char)
    requires IsDigit(ch)
    ensures !IsJsSpace(ch)
  {
  }

  lemma {:induction false} DigitPrefixOfDigits(s: string)
    requires AllDigits(s)
    ensures DigitPrefix(s) == s
    decreases |s|
  {
    if |s| > 0 {
      DigitPrefixOfDigits(s[1..]);
      assert [s[0]] + s[1..] == s;
    }
  }

  /** `parseInt` reads back the decimal text of every natural number. */
  lemma ParseDecimalText(n: nat)
    ensures ParseInt(DecimalText(n)) == Some(n)
  {
    var t := DecimalText(n);
    assert IsDigit(t[0]);
    DigitIsNoSpace(t[0]);
    assert TrimStart(t) == t;
    assert t[0] != '-' && t[0] != '+';
    DigitPrefixOfDigits(t);
    DecimalValueOfText(n);
  }

  /** `parseInt` reads back the decimal text of every integer, negative ones included. */
  lemma ParseIntText(i: int)
    ensures ParseInt(IntText(i)) == Some(i)
  {
    if i >= 0 {
      ParseDecimalText(i);
    } else {
      var n: nat := -i;
      assert IntText(i) == "-" + DecimalText(n);
      NegativeText(n);
      assert 0 - n as int == i;
    }
  }

  lemma NegativeText(n: nat)
    requires n > 0
    ensures ParseInt("-" + DecimalText(n)) == Some(0 - n as int)
  {
    var d := DecimalText(n);
    var t := "-" + d;
    assert t[0] == '-' && !IsJsSpace(t[0]);
    assert TrimStart(t) == t;
    assert t[1..] == d;
    DigitPrefixOfDigits(d);
    DecimalValueOfText(n);
  }

  /** The decimal text of a number holds no separator other than a digit or '-'. */
  lemma IntTextFree(i: int, c: char)
    requires c != '-' && !IsDigit(c)
    ensures Free(IntText(i), c)
  {
    var t := IntText(i);
    if i >= 0 {
      assert AllDigits(t);
    } else {
      assert AllDigits(t[1..]);
      forall k | 0 <= k < |t| ensures t[k] != c {
        if k > 0 { assert t[k] == t[1..][k - 1]; }
      }
    }
  }

  lemma DecimalTextInjective(m: nat, n: nat)
    requires DecimalText(m) == DecimalText(n)
    ensures m == n
  {
    ParseDecimalText(m);
    ParseDecimalText(n);
  }
}
