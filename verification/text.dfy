/** Character classes, decimal rendering and parsing, and the Python string
    operations (split, join, replace, strip) that the model relies on. */
module Text {
  import opened Wrappers

  predicate IsDigit(c: char) {
    '0' <= c <= '9'
  }

  /** Python's notion of whitespace for `str` (the characters `str.isspace()`
      accepts, which is also what `\s` matches in a `str` pattern). */
  predicate IsSpace(c: char) {
    var u := c as int;
    || (0x09 <= u <= 0x0D)
    || (0x1C <= u <= 0x20)
    || u == 0x85 || u == 0xA0 || u == 0x1680
    || (0x2000 <= u <= 0x200A)
    || u == 0x2028 || u == 0x2029 || u == 0x202F || u == 0x205F || u == 0x3000
  }

  predicate IsLowerAlnum(c: char) {
    IsDigit(c) || 'a' <= c <= 'z'
  }

  predicate AllDigits(s: string) {
    forall i :: 0 <= i < |s| ==> IsDigit(s[i])
  }

  predicate HasDigit(s: string) {
    exists i :: 0 <= i < |s| && IsDigit(s[i])
  }

  function DigitValue(c: char): nat
    requires IsDigit(c)
  {
    (c as int - '0' as int) as nat
  }

  function DigitChar(d: nat): (c: char)
    requires d < 10
    ensures IsDigit(c) && DigitValue(c) == d
  {
    (d + '0' as int) as char
  }

  /** The value of a string of decimal digits, most significant first. */
  function DigitsToNat(s: string): nat
    requires AllDigits(s)
  {
    if s == [] then 0 else DigitsToNat(s[..|s| - 1]) * 10 + DigitValue(s[|s| - 1])
  }

  /** Python's `str(n)` for a non-negative integer. */
  function NatToString(n: nat): (r: string)
    ensures |r| > 0 && AllDigits(r)
    ensures DigitsToNat(r) == n
    ensures n < 10 <==> |r| == 1
  {
    if n < 10 then [DigitChar(n)] else
      var r := NatToString(n / 10) + [DigitChar(n % 10)];
      assert r[..|r| - 1] == NatToString(n / 10);
      r
  }

  lemma NatToStringInjective(a: nat, b: nat)
    requires NatToString(a) == NatToString(b)
    ensures a == b
  {
  }

  /** Longer numbers never have shorter decimal renderings. */
  lemma {:induction false} NatToStringLengthMonotone(k: nat, j: nat)
    requires k <= j
    ensures |NatToString(k)| <= |NatToString(j)|
    decreases j
  {
    if k >= 10 {
      NatToStringLengthMonotone(k / 10, j / 10);
    }
  }

  /** Python's `str(i)` for any integer. */
  function IntToString(i: int): (r: string)
    ensures |r| > 0
    ensures i >= 0 ==> AllDigits(r)
    ensures i < 0 ==> r[0] == '-' && AllDigits(r[1..])
  {
    if i < 0 then "-" + NatToString(-i) else NatToString(i)
  }

  /** Python's `sep.join(parts)`. */
  function Join(parts: seq<string>, sep: string): string
  {
    if |parts| == 0 then ""
    else if |parts| == 1 then parts[0]
    else parts[0] + sep + Join(parts[1..], sep)
  }

  /** One-character parts joined by `", "`: every third character is the
      next part, separated by a comma and a space. */
  lemma {:induction false} JoinSingles(parts: seq<string>)
    requires forall i :: 0 <= i < |parts| ==> |parts[i]| == 1
    ensures |Join(parts, ", ")| == if parts == [] then 0 else 3 * |parts| - 2
    ensures forall k :: 0 <= k < |Join(parts, ", ")| ==>
      Join(parts, ", ")[k] == if k % 3 == 0 then parts[k / 3][0] else if k % 3 == 1 then ',' else ' '
    decreases |parts|
  {
    if |parts| > 1 {
      var rest := parts[1..];
      JoinSingles(rest);
      var j := Join(parts, ", ");
      var jr := Join(rest, ", ");
      assert j == parts[0] + ", " + jr;
      forall k | 3 <= k < |j|
        ensures j[k] == if k % 3 == 0 then parts[k / 3][0] else if k % 3 == 1 then ',' else ' '
      {
        assert j[k] == jr[k - 3];
        assert (k - 3) % 3 == k % 3 && (k - 3) / 3 == k / 3 - 1;
        assert k % 3 == 0 ==> rest[k / 3 - 1] == parts[k / 3];
      }
    }
  }

  /** Python's `s.split(c)` for a one-character separator. */
  function Split(s: string, c: char): (r: seq<string>)
    ensures |r| > 0
    ensures forall i :: 0 <= i < |r| ==> c !in r[i]
  {
    if s == [] then [""]
    else
      var rest := Split(s[1..], c);
      if s[0] == c then [""] + rest
      else [[s[0]] + rest[0]] + rest[1..]
  }

  /** Joining the pieces of a split with the separator gives back the string. */
  lemma {:induction false} SplitJoin(s: string, c: char)
    ensures Join(Split(s, c), [c]) == s
    decreases |s|
  {
    if s != [] {
      SplitJoin(s[1..], c);
      var rest := Split(s[1..], c);
      assert s == [s[0]] + s[1..];
      if s[0] != c {
        if |rest| > 1 {
          assert Join(rest, [c]) == rest[0] + [c] + Join(rest[1..], [c]);
        }
      }
    }
  }

  /** A separator-free prefix is the first piece of a split. */
  lemma {:induction false} SplitAfterPiece(x: string, c: char, y: string)
    requires c !in x
    ensures Split(x + [c] + y, c) == [x] + Split(y, c)
    decreases |x|
  {
    var s := x + [c] + y;
    if x == [] {
      assert s[0] == c;
      assert s[1..] == y;
    } else {
      assert s[0] == x[0];
      assert s[1..] == x[1..] + [c] + y;
      SplitAfterPiece(x[1..], c, y);
      assert [x[0]] + x[1..] == x;
    }
  }

  /** Splitting undoes joining, when no piece holds the separator. */
  lemma {:induction false} SplitJoinPieces(ps: seq<string>, c: char)
    requires |ps| > 0
    requires forall i :: 0 <= i < |ps| ==> c !in ps[i]
    ensures Split(Join(ps, [c]), c) == ps
    decreases |ps|
  {
    if |ps| == 1 {
      SplitNoSeparator(ps[0], c);
    } else {
      SplitJoinPieces(ps[1..], c);
      SplitAfterPiece(ps[0], c, Join(ps[1..], [c]));
      assert [ps[0]] + ps[1..] == ps;
    }
  }

  /** A string without the separator splits into itself. */
  lemma {:induction false} SplitNoSeparator(x: string, c: char)
    requires c !in x
    ensures Split(x, c) == [x]
    decreases |x|
  {
    if x != [] {
      SplitNoSeparator(x[1..], c);
      assert [x[0]] + x[1..] == x;
    }
  }

  /** Python's `s.replace(pat, rep)`: non-overlapping occurrences, scanned
      from the left, each replaced by `rep`. */
  function ReplaceAll(s: string, pat: string, rep: string): string
    requires |pat| > 0
    decreases |s|
  {
    if s == [] then []
    else if pat <= s then rep + ReplaceAll(s[|pat|..], pat, rep)
    else [s[0]] + ReplaceAll(s[1..], pat, rep)
  }

  /** A prefix free of the pattern's first character passes through a
      replacement unchanged. */
  lemma {:induction false} ReplaceAllSkips(d: string, t: string, pat: string, rep: string)
    requires |pat| > 0
    requires pat[0] !in d
    ensures ReplaceAll(d + t, pat, rep) == d + ReplaceAll(t, pat, rep)
    decreases |d|
  {
    if d == [] {
      assert d + t == t;
    } else {
      assert (d + t)[0] == d[0];
      assert !(pat <= d + t);
      assert (d + t)[1..] == d[1..] + t;
      ReplaceAllSkips(d[1..], t, pat, rep);
      var x := ReplaceAll(t, pat, rep);
      assert ReplaceAll(d + t, pat, rep) == [d[0]] + (d[1..] + x);
      assert [d[0]] + (d[1..] + x) == ([d[0]] + d[1..]) + x;
      assert [d[0]] + d[1..] == d;
    }
  }

  /** Removing every occurrence of one character (`s.replace(c, "")`). */
  function RemoveChar(s: string, c: char): (r: string)
    ensures c !in r
    ensures |r| <= |s|
    ensures forall x :: x != c ==> multiset(r)[x] == multiset(s)[x]
  {
    if s == [] then []
    else
      assert s == [s[0]] + s[1..];
      (if s[0] == c then [] else [s[0]]) + RemoveChar(s[1..], c)
  }

  lemma {:induction false} RemoveCharAppend(a: string, b: string, c: char)
    ensures RemoveChar(a + b, c) == RemoveChar(a, c) + RemoveChar(b, c)
    decreases |a|
  {
    if a == [] {
      assert a + b == b;
    } else {
      assert (a + b)[0] == a[0];
      assert (a + b)[1..] == a[1..] + b;
      RemoveCharAppend(a[1..], b, c);
      var h := if a[0] == c then [] else [a[0]];
      assert RemoveChar(a + b, c) == h + RemoveChar(a[1..] + b, c);
      assert RemoveChar(a, c) == h + RemoveChar(a[1..], c);
      assert h + (RemoveChar(a[1..], c) + RemoveChar(b, c)) == (h + RemoveChar(a[1..], c)) + RemoveChar(b, c);
    }
  }

  lemma {:induction false} RemoveCharAbsent(a: string, c: char)
    requires c !in a
    ensures RemoveChar(a, c) == a
    decreases |a|
  {
    if a != [] {
      RemoveCharAbsent(a[1..], c);
      assert [a[0]] + a[1..] == a;
    }
  }

  /** The longest prefix made of decimal digits. */
  function DigitRun(s: string): (r: string)
    ensures r <= s && AllDigits(r)
    ensures |r| < |s| ==> !IsDigit(s[|r|])
  {
    if s != [] && IsDigit(s[0]) then [s[0]] + DigitRun(s[1..]) else []
  }

  lemma {:induction false} DigitRunOf(d: string, t: string)
    requires AllDigits(d)
    requires t == [] || !IsDigit(t[0])
    ensures DigitRun(d + t) == d
    decreases |d|
  {
    if d == [] {
    } else {
      assert (d + t)[1..] == d[1..] + t;
      DigitRunOf(d[1..], t);
      assert [d[0]] + d[1..] == d;
    }
  }

  function TrimLeft(s: string): (r: string)
    ensures |r| <= |s|
  {
    if s != [] && IsSpace(s[0]) then TrimLeft(s[1..]) else s
  }

  function TrimRight(s: string): (r: string)
    ensures |r| <= |s|
  {
    if s != [] && IsSpace(s[|s| - 1]) then TrimRight(s[..|s| - 1]) else s
  }

  /** Python's `s.strip()`. */
  function Strip(s: string): string
  {
    TrimRight(TrimLeft(s))
  }

  /** The digit body Python's `int()` accepts: digits, with single
      underscores allowed between two digits. */
  predicate IntBody(b: string) {
    && |b| > 0
    && IsDigit(b[0])
    && IsDigit(b[|b| - 1])
    && (forall i :: 0 <= i < |b| ==> IsDigit(b[i]) || b[i] == '_')
    && (forall i :: 0 <= i < |b| - 1 ==> !(b[i] == '_' && b[i + 1] == '_'))
  }

  /** The digits of an accepted body, underscores dropped. */
  function DropUnderscores(b: string): (r: string)
    requires forall i :: 0 <= i < |b| ==> IsDigit(b[i]) || b[i] == '_'
    ensures AllDigits(r)
    ensures AllDigits(b) ==> r == b
  {
    if b == [] then []
    else (if b[0] == '_' then [] else [b[0]]) + DropUnderscores(b[1..])
  }

  function ParseBody(b: string): Option<int>
  {
    if IntBody(b) then Some(DigitsToNat(DropUnderscores(b))) else None
  }

  /** Python's `int(s)` on a string, in base 10: surrounding whitespace is
      ignored, one optional sign is allowed, and anything else is an error
      (`None` stands for the ValueError). */
  function ParseInt(s: string): (r: Option<int>)
  {
    ParseSigned(Strip(s))
  }

  /** An optional sign followed by an accepted body. */
  function ParseSigned(t: string): Option<int>
  {
    if |t| > 0 && t[0] == '-' then
      (match ParseBody(t[1..]) case None => None case Some(v) => Some(0 - v))
    else if |t| > 0 && t[0] == '+' then ParseBody(t[1..])
    else ParseBody(t)
  }

  lemma {:induction false} StripDigits(s: string)
    requires AllDigits(s)
    ensures Strip(s) == s
  {
    if s != [] {
      assert !IsSpace(s[0]);
      assert !IsSpace(s[|s| - 1]);
    }
  }

  /** Every non-empty digit string parses to its value. */
  lemma ParseIntDigits(s: string)
    requires |s| > 0 && AllDigits(s)
    ensures ParseInt(s) == Some(DigitsToNat(s) as int)
  {
    StripDigits(s);
    ParseBodyDigits(s);
  }

  /** `int(str(i)) == i`. */
  lemma ParseIntRoundTrip(i: int)
    ensures ParseInt(IntToString(i)) == Some(i)
  {
    if i >= 0 {
      assert IntToString(i) == NatToString(i);
      ParseIntDigits(NatToString(i));
    } else {
      ParseIntNegative(i);
    }
  }

  /** `int(str(i)) == i` for a negative `i`. */
  lemma ParseIntNegative(i: int)
    requires i < 0
    ensures ParseInt(IntToString(i)) == Some(i)
  {
    var t := IntToString(i);
    var d := NatToString(-i);
    assert t == "-" + d;
    assert t[1..] == d;
    StripKeeps(t);
    ParseSignedMinus(t);
    assert DigitsToNat(d) == -i;
  }

  /** A minus sign followed by digits is read as the negated value. */
  lemma ParseSignedMinus(t: string)
    requires |t| > 1 && t[0] == '-' && AllDigits(t[1..])
    ensures ParseSigned(t) == Some(0 - DigitsToNat(t[1..]))
  {
    var d := t[1..];
    ParseBodyDigits(d);
    var v := DigitsToNat(d) as int;
    assert ParseBody(d) == Some(v);
  }

  /** `int()` ignores surrounding whitespace and accepts a leading `+`. */
  lemma ParseIntPadded(n: nat)
    ensures ParseInt(" +" + NatToString(n) + "\n") == Some(n as int)
  {
    var d := NatToString(n);
    var t := "+" + d;
    assert " +" + d + "\n" == " " + t + "\n";
    StripPadded(t);
    assert t[1..] == d;
    ParseBodyDigits(d);
  }

  /** Text that starts with a sign or digit and ends with a digit is its
      own strip. */
  lemma StripKeeps(t: string)
    requires t != [] && (t[0] == '-' || t[0] == '+' || IsDigit(t[0])) && IsDigit(t[|t| - 1])
    ensures Strip(t) == t
  {
    assert !IsSpace(t[0]);
    assert TrimLeft(t) == t;
    assert !IsSpace(t[|t| - 1]);
    assert TrimRight(t) == t;
  }

  /** One whitespace character on each side is stripped. */
  lemma StripPadded(t: string)
    requires t != [] && (t[0] == '-' || t[0] == '+' || IsDigit(t[0])) && IsDigit(t[|t| - 1])
    ensures Strip(" " + t + "\n") == t
  {
    var s := " " + t + "\n";
    var u := t + "\n";
    assert IsSpace(' ') && IsSpace('\n') && !IsSpace(t[0]) && !IsSpace(t[|t| - 1]);
    assert s[0] == ' ' && s[1..] == u;
    assert TrimLeft(s) == TrimLeft(u);
    assert u[0] == t[0];
    assert TrimLeft(u) == u;
    assert u[|u| - 1] == '\n' && u[..|u| - 1] == t;
    assert TrimRight(u) == TrimRight(t);
    assert TrimRight(t) == t;
  }

  /** Trimming on the left removes only whitespace. */
  lemma {:induction false} TrimLeftKeeps(s: string, i: nat)
    requires i < |s| && !IsSpace(s[i])
    ensures s[i] in TrimLeft(s)
  {
    if s != [] && IsSpace(s[0]) {
      assert i > 0;
      assert s[1..][i - 1] == s[i];
      TrimLeftKeeps(s[1..], i - 1);
    }
  }

  /** Trimming on the right removes only whitespace. */
  lemma {:induction false} TrimRightKeeps(s: string, i: nat)
    requires i < |s| && !IsSpace(s[i])
    ensures s[i] in TrimRight(s)
  {
    if s != [] && IsSpace(s[|s| - 1]) {
      assert i < |s| - 1;
      assert s[..|s| - 1][i] == s[i];
      TrimRightKeeps(s[..|s| - 1], i);
    }
  }

  /** A character that is not whitespace survives `strip()`. */
  lemma StripKeepsChar(s: string, i: nat)
    requires i < |s| && !IsSpace(s[i])
    ensures s[i] in Strip(s)
  {
    TrimLeftKeeps(s, i);
    var l := TrimLeft(s);
    var j :| 0 <= j < |l| && l[j] == s[i];
    TrimRightKeeps(l, j);
  }

  /** `int()` fails on any text holding a character that is neither
      whitespace, a digit, a sign nor an underscore. */
  lemma ParseIntRejects(s: string, i: nat)
    requires i < |s| && !IsSpace(s[i]) && !IsDigit(s[i])
    requires s[i] != '+' && s[i] != '-' && s[i] != '_'
    ensures ParseInt(s) == None
  {
    StripKeepsChar(s, i);
    var t := Strip(s);
    var j :| 0 <= j < |t| && t[j] == s[i];
    if |t| > 0 && (t[0] == '-' || t[0] == '+') {
      assert j > 0;
      assert t[1..][j - 1] == s[i];
      assert !IntBody(t[1..]);
    } else {
      assert !IntBody(t);
    }
  }

  lemma ParseBodyDigits(d: string)
    requires |d| > 0 && AllDigits(d)
    ensures ParseBody(d) == Some(DigitsToNat(d) as int)
  {
    assert IntBody(d);
  }
}
