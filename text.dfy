/**
 * The string operations the service relies on, written out as Python
 * defines them: decimal rendering of a non-negative int (`f"{i}"`) and
 * reading it back, `sep.join(parts)` (with `Split`, its inverse, for
 * stating round-trips), `s.strip()`, `s.endswith(x)` and the `stem` /
 * `suffix` properties of a one-component `pathlib.Path`.
 */
module Text {

  // ---------------------------------------------------------------------
  // Decimal rendering

  function DigitChar(d: nat): char
    requires d < 10
  {
    (48 + d) as char
  }

  /** `f"{n}"` for a non-negative int: the shortest decimal numeral. */
  function NatToString(n: nat): (s: string)
    ensures 1 <= |s|
    ensures forall k :: 0 <= k < |s| ==> '0' <= s[k] <= '9'
    ensures n >= 10 ==> 2 <= |s|
    decreases n
  {
    if n < 10 then [DigitChar(n)] else NatToString(n / 10) + [DigitChar(n % 10)]
  }

  /** Different numbers render differently, so ids built from them are distinct. */
  lemma {:induction false} NatToStringInjective(a: nat, b: nat)
    requires NatToString(a) == NatToString(b)
    ensures a == b
    decreases a
  {
    var s := NatToString(a);
    if a >= 10 && b >= 10 {
      assert s[..|s| - 1] == NatToString(a / 10);
      assert NatToString(b)[..|s| - 1] == NatToString(b / 10);
      NatToStringInjective(a / 10, b / 10);
      assert DigitChar(a % 10) == s[|s| - 1] == DigitChar(b % 10);
    } else if a < 10 && b < 10 {
      assert DigitChar(a) == s[0] == DigitChar(b);
    }
  }

  /** The number a string of decimal digits denotes, as `int(s)` reads it. */
  function DigitsValue(s: string): nat
    requires forall k :: 0 <= k < |s| ==> '0' <= s[k] <= '9'
  {
    if s == [] then 0 else 10 * DigitsValue(s[..|s| - 1]) + (s[|s| - 1] as int - '0' as int)
  }

  /** Reading the numeral back gives the number: `int(f"{n}") == n`. */
  lemma {:induction false} NatToStringValue(n: nat)
    ensures DigitsValue(NatToString(n)) == n
    decreases n
  {
    var s := NatToString(n);
    if n >= 10 {
      assert s[..|s| - 1] == NatToString(n / 10);
      NatToStringValue(n / 10);
    }
  }

  /** How many digits the string ends with. */
  function TrailingDigitCount(s: string): nat
  {
    if s == [] || !('0' <= s[|s| - 1] <= '9') then 0 else 1 + TrailingDigitCount(s[..|s| - 1])
  }

  /** After a `-`, the trailing digits are exactly the run that follows it. */
  lemma {:induction false} TrailingDigitCountAfterDash(x: string, d: string)
    requires forall k :: 0 <= k < |d| ==> '0' <= d[k] <= '9'
    ensures TrailingDigitCount(x + "-" + d) == |d|
    decreases |d|
  {
    var s := x + "-" + d;
    if d != [] {
      assert s[..|s| - 1] == x + "-" + d[..|d| - 1];
      TrailingDigitCountAfterDash(x, d[..|d| - 1]);
    }
  }

  /**
   * A run of digits after the last `-` is fixed by the whole string: two
   * strings ending in `-` and a run of digits are equal only if the runs are.
   */
  lemma TrailingDigits(x: string, d: string, y: string, e: string)
    requires x + "-" + d == y + "-" + e
    requires forall k :: 0 <= k < |d| ==> '0' <= d[k] <= '9'
    requires forall k :: 0 <= k < |e| ==> '0' <= e[k] <= '9'
    ensures d == e
  {
    var s := x + "-" + d;
    TrailingDigitCountAfterDash(x, d);
    TrailingDigitCountAfterDash(y, e);
    assert d == s[|s| - |d|..];
    assert e == (y + "-" + e)[|s| - |e|..];
  }

  /** Equal strings with a common prefix have equal remainders. */
  lemma PrefixCancel(p: string, x: string, y: string)
    requires p + x == p + y
    ensures x == y
  {
    assert x == (p + x)[|p|..];
    assert y == (p + y)[|p|..];
  }

  // ---------------------------------------------------------------------
  // sep.join(parts), and its inverse

  /** Python's `sep.join(parts)`. */
  function Join(parts: seq<string>, sep: string): string
  {
    if |parts| == 0 then ""
    else if |parts| == 1 then parts[0]
    else parts[0] + sep + Join(parts[1..], sep)
  }

  /** Python's `s.split(sep)` for a one-character separator: never empty, `"".split(sep) == [""]`. */
  function Split(s: string, sep: char): (parts: seq<string>)
    ensures |parts| >= 1
    decreases |s|
  {
    if s == [] then [""]
    else
      var rest := Split(s[1..], sep);
      if s[0] == sep then [""] + rest
      else [[s[0]] + rest[0]] + rest[1..]
  }

  lemma {:induction false} SplitPrefix(x: string, t: string, sep: char)
    requires sep !in x
    ensures Split(x + t, sep) == [x + Split(t, sep)[0]] + Split(t, sep)[1..]
    decreases |x|
  {
    if x != [] {
      assert (x + t)[0] == x[0];
      assert (x + t)[1..] == x[1..] + t;
      SplitPrefix(x[1..], t, sep);
      var rest := Split(x[1..] + t, sep);
      assert rest[0] == x[1..] + Split(t, sep)[0];
      assert rest[1..] == Split(t, sep)[1..];
      assert Split(x + t, sep) == [[x[0]] + rest[0]] + rest[1..];
      assert [x[0]] + (x[1..] + Split(t, sep)[0]) == x + Split(t, sep)[0];
    } else {
      var parts := Split(t, sep);
      assert x + t == t && x + parts[0] == parts[0];
      assert [parts[0]] + parts[1..] == parts;
    }
  }

  /** Splitting a join gives back the parts when no part holds the separator. */
  lemma {:induction false} SplitJoin(parts: seq<string>, sep: char)
    requires |parts| >= 1
    requires forall k :: 0 <= k < |parts| ==> sep !in parts[k]
    ensures Split(Join(parts, [sep]), sep) == parts
    decreases |parts|
  {
    if |parts| == 1 {
      SplitPrefix(parts[0], "", sep);
      assert parts[0] + "" == parts[0];
    } else {
      var tail := Join(parts[1..], [sep]);
      SplitJoin(parts[1..], sep);
      assert ([sep] + tail)[1..] == tail;
      assert Split([sep] + tail, sep) == [""] + Split(tail, sep);
      SplitPrefix(parts[0], [sep] + tail, sep);
      assert parts[0] + [sep] + tail == parts[0] + ([sep] + tail);
      assert parts[0] + "" == parts[0];
      assert [parts[0]] + parts[1..] == parts;
    }
  }

  /** Joining one more part appends the separator and the part. */
  lemma {:induction false} JoinSnoc(parts: seq<string>, last: string, sep: string)
    requires |parts| >= 1
    ensures Join(parts + [last], sep) == Join(parts, sep) + sep + last
    decreases |parts|
  {
    if |parts| == 1 {
      assert (parts + [last])[1..] == [last];
    } else {
      assert (parts + [last])[1..] == parts[1..] + [last];
      JoinSnoc(parts[1..], last, sep);
    }
  }

  // ---------------------------------------------------------------------
  // s.strip()

  /** `str.isspace()` for one character: the characters `str.strip()` removes. */
  predicate IsSpace(ch: char)
  {
    var c := ch as int;
    c == 32 || 9 <= c <= 13 || 28 <= c <= 31 || c == 0x85 || c == 0xA0 || c == 0x1680
    || 0x2000 <= c <= 0x200A || c == 0x2028 || c == 0x2029 || c == 0x202F || c == 0x205F
    || c == 0x3000
  }

  /** The suffix of `s` left after its leading whitespace (see `TrimStartShape`). */
  function TrimStart(s: string): string
    decreases |s|
  {
    if s != [] && IsSpace(s[0]) then TrimStart(s[1..]) else s
  }

  /** The prefix of `s` left before its trailing whitespace (see `TrimEndShape`). */
  function TrimEnd(s: string): string
    decreases |s|
  {
    if s != [] && IsSpace(s[|s| - 1]) then TrimEnd(s[..|s| - 1]) else s
  }

  /** `TrimStart` drops exactly the leading run of whitespace. */
  lemma {:induction false} TrimStartShape(s: string)
    ensures var r := TrimStart(s);
      && |r| <= |s| && r == s[|s| - |r|..]
      && (forall k :: 0 <= k < |s| - |r| ==> IsSpace(s[k]))
      && (r == [] || !IsSpace(r[0]))
    decreases |s|
  {
    if s != [] && IsSpace(s[0]) {
      TrimStartShape(s[1..]);
      var r := TrimStart(s[1..]);
      assert s[1..][|s| - 1 - |r|..] == s[|s| - |r|..];
      forall k | 0 <= k < |s| - |r|
        ensures IsSpace(s[k])
      {
        if k > 0 {
          assert s[k] == s[1..][k - 1];
        }
      }
    }
  }

  /** `TrimEnd` drops exactly the trailing run of whitespace. */
  lemma {:induction false} TrimEndShape(s: string)
    ensures var r := TrimEnd(s);
      && |r| <= |s| && r == s[..|r|]
      && (forall k :: |r| <= k < |s| ==> IsSpace(s[k]))
      && (r == [] || !IsSpace(r[|r| - 1]))
    decreases |s|
  {
    if s != [] && IsSpace(s[|s| - 1]) {
      TrimEndShape(s[..|s| - 1]);
      var r := TrimEnd(s[..|s| - 1]);
      assert s[..|s| - 1][..|r|] == s[..|r|];
      forall k | |r| <= k < |s|
        ensures IsSpace(s[k])
      {
        if k < |s| - 1 {
          assert s[k] == s[..|s| - 1][k];
        }
      }
    }
  }

  /** `r` sits at offset `i` of `s` with only whitespace around it. */
  ghost predicate SpaceAround(s: string, r: string, i: int)
  {
    && 0 <= i <= |s| - |r|
    && r == s[i..i + |r|]
    && (forall k :: 0 <= k < i ==> IsSpace(s[k]))
    && (forall k :: i + |r| <= k < |s| ==> IsSpace(s[k]))
  }

  /** Python's `s.strip()` (see `StripTrims`). */
  function Strip(s: string): string
  {
    TrimEnd(TrimStart(s))
  }

  /** `strip()` keeps the infix of `s` between its leading and trailing whitespace, and no more. */
  lemma StripTrims(s: string)
    ensures var r := Strip(s);
      && (r == [] || (!IsSpace(r[0]) && !IsSpace(r[|r| - 1])))
      && exists i :: SpaceAround(s, r, i)
  {
    var t := TrimStart(s);
    TrimStartShape(s);
    TrimEndShape(t);
    assert SpaceAround(s, Strip(s), |s| - |t|);
  }

  lemma {:induction false} TrimStartAppend(s: string, t: string)
    ensures TrimStart(s) != [] ==> TrimStart(s + t) == TrimStart(s) + t
    ensures TrimStart(s) == [] ==> TrimStart(s + t) == TrimStart(t)
    decreases |s|
  {
    if s == [] {
      assert s + t == t;
    } else {
      assert (s + t)[0] == s[0];
      assert (s + t)[1..] == s[1..] + t;
      if IsSpace(s[0]) {
        TrimStartAppend(s[1..], t);
      }
    }
  }

  /** Whitespace after the text does not change what `strip()` keeps. */
  lemma StripDropsTrailingSpace(s: string, c: char)
    requires IsSpace(c)
    ensures Strip(s + [c]) == Strip(s)
  {
    TrimStartAppend(s, [c]);
    var t := TrimStart(s);
    if t != [] {
      assert (t + [c])[..|t|] == t;
    } else {
      assert TrimStart([c]) == TrimStart([c][1..]);
    }
  }

  // ---------------------------------------------------------------------
  // str.endswith and pathlib stem / suffix

  predicate EndsWith(s: string, suffix: string)
  {
    |suffix| <= |s| && s[|s| - |suffix|..] == suffix
  }

  /** Python's `s.rfind(c)`: the last index holding `c`, or -1 (see `LastIndexOfFinds`). */
  function LastIndexOf(s: string, c: char): (i: int)
    ensures -1 <= i < |s|
    decreases |s|
  {
    if s == [] then -1
    else if s[|s| - 1] == c then |s| - 1
    else LastIndexOf(s[..|s| - 1], c)
  }

  /** `LastIndexOf` finds `c`, and no `c` comes after it; -1 means `c` does not occur. */
  lemma {:induction false} LastIndexOfFinds(s: string, c: char)
    ensures var i := LastIndexOf(s, c);
      && (0 <= i ==> s[i] == c)
      && (forall k :: i < k < |s| ==> s[k] != c)
    decreases |s|
  {
    if s != [] && s[|s| - 1] != c {
      var t := s[..|s| - 1];
      LastIndexOfFinds(t, c);
      assert forall k :: 0 <= k < |t| ==> t[k] == s[k];
    }
  }

  /** `Path(name).suffix` for a name with no directory part. */
  function Suffix(name: string): string
  {
    var i := LastIndexOf(name, '.');
    if 0 < i < |name| - 1 then name[i..] else ""
  }

  /** `Path(name).stem` for a name with no directory part. */
  function Stem(name: string): string
  {
    var i := LastIndexOf(name, '.');
    if 0 < i < |name| - 1 then name[..i] else name
  }

  /** Stem and suffix split the name: nothing is lost or invented. */
  lemma StemSuffixSplit(name: string)
    ensures Stem(name) + Suffix(name) == name
  {
    var i := LastIndexOf(name, '.');
    if 0 < i < |name| - 1 {
      assert name[..i] + name[i..] == name;
    }
  }

  /** A name `x.pdf` with a non-empty `x` splits into stem `x` and suffix `.pdf`. */
  lemma PdfNameSplit(name: string)
    requires 4 < |name| && EndsWith(name, ".pdf")
    ensures Suffix(name) == ".pdf"
    ensures Stem(name) == name[..|name| - 4]
  {
    var n := |name|;
    assert name[n - 4..] == ".pdf";
    assert name[n - 4] == '.' && name[n - 3] == 'p' && name[n - 2] == 'd' && name[n - 1] == 'f';
    LastIndexOfFinds(name, '.');
    var i := LastIndexOf(name, '.');
    assert i == n - 4;
  }

  /** The name `.pdf` alone is a dot-file: its stem is the whole name and it has no suffix. */
  lemma DotPdfName()
    ensures Stem(".pdf") == ".pdf"
    ensures Suffix(".pdf") == ""
  {
    assert ".pdf"[..3] == ".pd" && ".pd"[..2] == ".p" && ".p"[..1] == ".";
    assert LastIndexOf(".", '.') == 0;
    assert LastIndexOf(".pdf", '.') == LastIndexOf(".p", '.') == 0;
  }

  /** A name ending in `.pdf` has suffix `.pdf`, unless it is `.pdf` itself, which has none. */
  lemma PdfSuffix(name: string)
    requires EndsWith(name, ".pdf")
    ensures Suffix(name) == (if |name| == 4 then "" else ".pdf")
  {
    if |name| == 4 {
      assert name == name[|name| - 4..] == ".pdf";
      DotPdfName();
    } else {
      PdfNameSplit(name);
    }
  }
}
