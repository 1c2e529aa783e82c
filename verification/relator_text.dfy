/** The text clean-up applied to relators and elements of a pc-presented
    group: generator names `f1, f2, ...` become letters `a, b, ...`
    (`write_element` and the end of `presentation`), exponents that are
    negative or have two or more digits are braced for TeX, and
    multiplication stars are dropped.

    The substitution is string replacement, so its correctness depends on
    the shape of the text; the token model below (`Token`, `Render`)
    describes the texts GAP prints and states what the clean-up does to
    each token. */
module RelatorText {
  import opened Wrappers
  import opened Text

  /** Code points from `a` up to just below the surrogates are letters
      `chr(97 + i)` that a Dafny `char` can hold. */
  const LetterLimit: nat := 0xD800 - 97

  /** `chr(97 + i)`. */
  function Letter(i: nat): (c: char)
    requires i < LetterLimit
    ensures !IsDigit(c) && c != '^' && c != '*' && c != '-'
  {
    (97 + i) as char
  }

  /** `"f%s" % k`, the name GAP gives the k-th pc generator. */
  function GenName(k: nat): (r: string)
    ensures |r| > 1 && r[0] == 'f' && AllDigits(r[1..])
  {
    "f" + NatToString(k)
  }

  /** `for i in reversed(range(ngens)): s = s.replace("f%s" % (i+1), chr(97+i))`:
      the highest generator is replaced first. */
  function SubstGens(s: string, ngens: nat): string
    requires ngens <= LetterLimit
    decreases ngens
  {
    if ngens == 0 then s
    else SubstGens(ReplaceAll(s, GenName(ngens), [Letter(ngens - 1)]), ngens - 1)
  }

  // ---- the token model ----

  /** A piece of printed text: a generator name `f<index>`, a single
      character, a run of other text, an exponent `^<e>`, or a caret
      followed by one character, as in the conjugation `b^a`. */
  datatype Token =
    | Gen(index: nat)
    | Chr(c: char)
    | Text(t: string)
    | Pow(e: int)
    | Caret(c: char)

  function TokenText(tk: Token): (r: string)
  {
    match tk
    case Gen(k) => GenName(k)
    case Chr(c) => [c]
    case Text(t) => t
    case Pow(e) => "^" + IntToString(e)
    case Caret(c) => "^" + [c]
  }

  function Render(ts: seq<Token>): string
  {
    if ts == [] then [] else TokenText(ts[0]) + Render(ts[1..])
  }

  /** Single characters are neither digits nor carets; the character after
      a caret is not a minus sign or a star either; other text is nonempty
      and holds neither an `f` nor a caret. */
  predicate TokenOk(tk: Token) {
    match tk
    case Gen(k) => k >= 1
    case Chr(c) => !IsDigit(c) && c != '^'
    case Text(t) => |t| > 0 && 'f' !in t && '^' !in t
    case Pow(_) => true
    case Caret(c) => !IsDigit(c) && c != '^' && c != '-' && c != '*'
  }

  predicate StartsWithDigit(tk: Token) {
    tk.Text? && |tk.t| > 0 && IsDigit(tk.t[0])
  }

  /** Every token is well formed, and no digit directly follows a
      generator name, a single character or an exponent: the digits of
      `f12` or `^12` are never split across tokens. */
  predicate WellFormed(ts: seq<Token>)
    decreases |ts|
  {
    ts == [] ||
    (TokenOk(ts[0]) && (|ts| > 1 && !ts[0].Text? ==> !StartsWithDigit(ts[1])) && WellFormed(ts[1..]))
  }

  /** Every generator index is between 1 and `n`. */
  predicate GensAtMost(ts: seq<Token>, n: nat) {
    forall j :: 0 <= j < |ts| && ts[j].Gen? ==> 1 <= ts[j].index <= n
  }

  /** Generator `i` written as its letter. */
  function Step(ts: seq<Token>, i: nat): (r: seq<Token>)
    requires 1 <= i <= LetterLimit
    ensures |r| == |ts|
    ensures forall j :: 0 <= j < |ts| ==> r[j] == (if ts[j] == Gen(i) then Chr(Letter(i - 1)) else ts[j])
  {
    if ts == [] then [] else [if ts[0] == Gen(i) then Chr(Letter(i - 1)) else ts[0]] + Step(ts[1..], i)
  }

  /** Every generator written as its letter. */
  function Lettered(ts: seq<Token>): (r: seq<Token>)
    requires GensAtMost(ts, LetterLimit)
    ensures |r| == |ts|
    ensures forall j :: 0 <= j < |ts| ==> r[j] == (if ts[j].Gen? then Chr(Letter(ts[j].index - 1)) else ts[j])
  {
    if ts == [] then []
    else
      assert forall j :: 1 <= j < |ts| ==> ts[1..][j - 1] == ts[j];
      [if ts[0].Gen? then Chr(Letter(ts[0].index - 1)) else ts[0]] + Lettered(ts[1..])
  }

  /** The text after a token that no digit may follow does not start with a digit. */
  lemma RenderStart(ts: seq<Token>)
    requires WellFormed(ts)
    requires ts != [] ==> !StartsWithDigit(ts[0])
    ensures Render(ts) == [] || !IsDigit(Render(ts)[0])
  {
    if ts != [] {
      var x := TokenText(ts[0]);
      assert |x| > 0;
      assert Render(ts)[0] == x[0];
    }
  }

  /** Replacing `f<i>` touches the tokens `Gen(i)` and nothing else, provided
      no higher generator is left. */
  lemma {:induction false} ReplaceOne(ts: seq<Token>, i: nat)
    requires WellFormed(ts)
    requires 1 <= i <= LetterLimit
    requires GensAtMost(ts, i)
    ensures ReplaceAll(Render(ts), GenName(i), [Letter(i - 1)]) == Render(Step(ts, i))
    decreases |ts|
  {
    if ts != [] {
      var pat := GenName(i);
      var rep := [Letter(i - 1)];
      var rest := ts[1..];
      var r := Render(rest);
      assert GensAtMost(rest, i) by {
        forall j | 0 <= j < |rest| && rest[j].Gen?
          ensures 1 <= rest[j].index <= i
        {
          assert rest[j] == ts[j + 1];
        }
      }
      ReplaceOne(rest, i);
      assert Step(ts, i) == [Step(ts, i)[0]] + Step(rest, i);
      var x := TokenText(ts[0]);
      assert Render(ts) == x + r;
      if !ts[0].Text? {
        RenderStart(rest);
      }
      ReplaceToken(ts[0], r, i);
    }
  }

  /** One token followed by the text `r`. */
  lemma {:induction false} ReplaceToken(tk: Token, r: string, i: nat)
    requires TokenOk(tk)
    requires 1 <= i <= LetterLimit
    requires tk.Gen? ==> tk.index <= i
    requires !tk.Text? ==> r == [] || !IsDigit(r[0])
    ensures ReplaceAll(TokenText(tk) + r, GenName(i), [Letter(i - 1)])
         == TokenText(if tk == Gen(i) then Chr(Letter(i - 1)) else tk) + ReplaceAll(r, GenName(i), [Letter(i - 1)])
  {
    var pat := GenName(i);
    var rep := [Letter(i - 1)];
    match tk
    case Text(t) =>
      ReplaceAllSkips(t, r, pat, rep);
    case Pow(e) =>
      ReplacePow(e, r, i);
    case Chr(c) =>
      if c != 'f' {
        ReplaceAllSkips([c], r, pat, rep);
      } else {
        ReplaceLoneF(r, i);
      }
    case Caret(c) =>
      ReplaceCaret(c, r, i);
    case Gen(k) =>
      if k == i {
        ReplaceSameGen(r, i);
      } else {
        ReplaceLowerGen(k, i, r);
      }
  }

  /** A caret and the character after it hold no generator name. */
  lemma ReplaceCaret(c: char, r: string, i: nat)
    requires 1 <= i <= LetterLimit
    requires r == [] || !IsDigit(r[0])
    ensures ReplaceAll("^" + [c] + r, GenName(i), [Letter(i - 1)]) == "^" + [c] + ReplaceAll(r, GenName(i), [Letter(i - 1)])
  {
    var pat := GenName(i);
    var rep := [Letter(i - 1)];
    assert "^" + [c] + r == "^" + ([c] + r);
    ReplaceAllSkips("^", [c] + r, pat, rep);
    if c != 'f' {
      ReplaceAllSkips([c], r, pat, rep);
    } else {
      ReplaceLoneF(r, i);
    }
  }

  /** The generator being replaced becomes its letter. */
  lemma ReplaceSameGen(r: string, i: nat)
    requires 1 <= i <= LetterLimit
    ensures ReplaceAll(GenName(i) + r, GenName(i), [Letter(i - 1)]) == [Letter(i - 1)] + ReplaceAll(r, GenName(i), [Letter(i - 1)])
  {
    var pat := GenName(i);
    assert pat <= pat + r;
    assert (pat + r)[|pat|..] == r;
  }

  /** An exponent holds no `f` and is left alone. */
  lemma ReplacePow(e: int, r: string, i: nat)
    requires 1 <= i <= LetterLimit
    ensures ReplaceAll("^" + IntToString(e) + r, GenName(i), [Letter(i - 1)]) == "^" + IntToString(e) + ReplaceAll(r, GenName(i), [Letter(i - 1)])
  {
    var p := "^" + IntToString(e);
    assert 'f' !in p;
    ReplaceAllSkips(p, r, GenName(i), [Letter(i - 1)]);
  }

  /** A lone `f` followed by a non-digit is not a generator name. */
  lemma ReplaceLoneF(r: string, i: nat)
    requires 1 <= i <= LetterLimit
    requires r == [] || !IsDigit(r[0])
    ensures ReplaceAll("f" + r, GenName(i), [Letter(i - 1)]) == "f" + ReplaceAll(r, GenName(i), [Letter(i - 1)])
  {
    var pat := GenName(i);
    var s := "f" + r;
    assert !(pat <= s) by {
      if |s| >= |pat| {
        assert pat[1] != s[1];
      }
    }
    assert s[1..] == r;
  }

  /** A lower generator's name is left alone. */
  lemma ReplaceLowerGen(k: nat, i: nat, r: string)
    requires k < i <= LetterLimit
    requires r == [] || !IsDigit(r[0])
    ensures ReplaceAll(GenName(k) + r, GenName(i), [Letter(i - 1)]) == GenName(k) + ReplaceAll(r, GenName(i), [Letter(i - 1)])
  {
    var pat := GenName(i);
    var dk := NatToString(k);
    var s := GenName(k) + r;
    assert s == ['f'] + (dk + r);
    NoLongerPrefix(k, i, r);
    assert s[1..] == dk + r;
    ReplaceAllSkips(dk, r, pat, [Letter(i - 1)]);
  }

  /** `f<i>` is not a prefix of `f<k>` followed by a non-digit when `k < i`. */
  lemma NoLongerPrefix(k: nat, i: nat, r: string)
    requires k < i
    requires r == [] || !IsDigit(r[0])
    ensures !(GenName(i) <= GenName(k) + r)
  {
    NatToStringLengthMonotone(k, i);
    if GenName(i) <= GenName(k) + r {
      if |GenName(i)| == |GenName(k)| {
        SameLengthPrefix(GenName(i), GenName(k), r);
      } else {
        LongerPrefix(GenName(i), GenName(k), r);
      }
    }
  }

  lemma SameLengthPrefix(a: string, b: string, r: string)
    requires |a| == |b| && a <= b + r
    ensures a == b
  {
    assert forall m :: 0 <= m < |a| ==> a[m] == (b + r)[m];
  }

  /** A name that runs past `f<k>` reads the next character as a digit. */
  lemma LongerPrefix(a: string, b: string, r: string)
    requires |a| > |b| >= 1 && a <= b + r
    requires AllDigits(a[1..])
    ensures r != [] && IsDigit(r[0])
  {
    assert a[|b|] == (b + r)[|b|] == r[0];
    assert a[1..][|b| - 1] == a[|b|];
  }

  /** The tokens after one substitution are still well formed and hold
      only lower generators. */
  lemma {:induction false} StepKeeps(ts: seq<Token>, i: nat)
    requires WellFormed(ts)
    requires 1 <= i <= LetterLimit
    requires GensAtMost(ts, i)
    ensures WellFormed(Step(ts, i))
    ensures GensAtMost(Step(ts, i), i - 1)
    decreases |ts|
  {
    if ts != [] {
      var rest := ts[1..];
      assert GensAtMost(rest, i) by {
        forall j | 0 <= j < |rest| && rest[j].Gen?
          ensures 1 <= rest[j].index <= i
        {
          assert rest[j] == ts[j + 1];
        }
      }
      StepKeeps(rest, i);
      assert Step(ts, i)[1..] == Step(rest, i);
    }
  }

  /** Lettering after one substitution is lettering. */
  lemma StepLettered(ts: seq<Token>, i: nat)
    requires 1 <= i <= LetterLimit
    requires GensAtMost(ts, i)
    ensures GensAtMost(Step(ts, i), LetterLimit)
    ensures Lettered(Step(ts, i)) == Lettered(ts)
  {
    assert forall j :: 0 <= j < |ts| ==> Lettered(Step(ts, i))[j] == Lettered(ts)[j];
  }

  /** The generator substitution of `write_element` and `presentation`
      turns every generator name `f<k>` into the letter `chr(96 + k)` and
      leaves all other text alone: in particular `f10` becomes the tenth
      letter, never the first letter followed by `0`. */
  lemma {:induction false} SubstGensTokens(ts: seq<Token>, ngens: nat)
    requires WellFormed(ts)
    requires ngens <= LetterLimit
    requires GensAtMost(ts, ngens)
    ensures SubstGens(Render(ts), ngens) == Render(Lettered(ts))
    decreases ngens
  {
    if ngens == 0 {
      assert Lettered(ts) == ts;
    } else {
      ReplaceOne(ts, ngens);
      StepKeeps(ts, ngens);
      SubstGensTokens(Step(ts, ngens), ngens - 1);
      StepLettered(ts, ngens);
    }
  }

  // ---- exponents and stars ----

  /** `fix_exponent_re.sub(r"^{\1}", s)` with the pattern `\^(-\d+|\d\d+)`:
      scanning from the left, a caret followed by a minus sign and digits,
      or by two or more digits, has the whole digit run braced. */
  function FixExponents(s: string): string
    decreases |s|
  {
    if s == [] then []
    else if s[0] == '^' && |s| > 2 && s[1] == '-' && IsDigit(s[2]) then
      var d := DigitRun(s[2..]);
      "^{-" + d + "}" + FixExponents(s[2 + |d|..])
    else if s[0] == '^' && |s| > 2 && IsDigit(s[1]) && IsDigit(s[2]) then
      var d := DigitRun(s[1..]);
      "^{" + d + "}" + FixExponents(s[1 + |d|..])
    else [s[0]] + FixExponents(s[1..])
  }

  /** The clean-up of the relator text in `presentation`: letters for
      generators, braced exponents, no stars. */
  function Normalise(s: string, ngens: nat): string
    requires ngens <= LetterLimit
  {
    RemoveChar(FixExponents(SubstGens(s, ngens)), '*')
  }

  /** `write_element`: the letters for the generators when elements are pc
      words (`elt_rep_type == 0`); for other representations the method
      falls through and returns `None`. */
  function WriteElement(eltRepType: int, s: string, ngens: nat): (r: Option<string>)
    requires ngens <= LetterLimit
    ensures r.Some? <==> eltRepType == 0
    ensures r.Some? ==> forall ts :: WellFormed(ts) && GensAtMost(ts, ngens) && Render(ts) == s ==>
      r.value == Render(Lettered(ts))
  {
    if eltRepType == 0 then
      assert forall ts :: WellFormed(ts) && GensAtMost(ts, ngens) && Render(ts) == s ==>
        SubstGens(s, ngens) == Render(Lettered(ts)) by {
        forall ts | WellFormed(ts) && GensAtMost(ts, ngens) && Render(ts) == s
          ensures SubstGens(s, ngens) == Render(Lettered(ts))
        {
          SubstGensTokens(ts, ngens);
        }
      }
      Some(SubstGens(s, ngens))
    else None
  }
  /** Only `f1` to `f<ngens>` are renamed, so a higher generator is
      renamed in part: with three generators `f12` is read as `f1`
      followed by `2`. */
  lemma WriteElementBeyondGens()
    ensures WriteElement(0, "f12", 3) == Some("a2")
  {
    assert GenName(3) == "f3" && GenName(2) == "f2" && GenName(1) == "f1";
    assert ReplaceAll("f12", "f3", "c") == "f12";
    assert ReplaceAll("f12", "f2", "b") == "f12";
    assert ReplaceAll("2", "f1", "a") == "2";
    assert ReplaceAll("f12", "f1", "a") == "a2";
  }


  /** How an exponent is shown: braced when negative or of two or more digits. */
  function Braced(e: int): (r: string)
    ensures (e < 0 || e >= 10) <==> r == "{" + IntToString(e) + "}"
    ensures r == IntToString(e) || r == "{" + IntToString(e) + "}"
    ensures r == "{" + IntToString(e) + "}" <==> IntToString(e)[0] == '-' || |IntToString(e)| >= 2
  {
    var d := IntToString(e);
    assert e >= 0 ==> IsDigit(d[0]);
    if e < 0 || e >= 10 then "{" + d + "}" else d
  }

  /** What the reader sees for one token once the text is cleaned up. */
  function Shown(tk: Token): (r: string)
    requires GensAtMost([tk], LetterLimit)
    ensures '*' !in r
  {
    match tk
    case Gen(k) =>
      assert [tk][0] == tk;
      [Letter(k - 1)]
    case Chr(c) => if c == '*' then [] else [c]
    case Text(t) => RemoveChar(t, '*')
    case Pow(e) =>
      BracedNoStar(e);
      "^" + Braced(e)
    case Caret(c) => if c == '*' then "^" else "^" + [c]
  }

  function Display(ts: seq<Token>): (r: string)
    requires GensAtMost(ts, LetterLimit)
    ensures '*' !in r
  {
    if ts == [] then []
    else
      assert GensAtMost([ts[0]], LetterLimit) by {
        assert [ts[0]][0] == ts[0];
      }
      assert GensAtMost(ts[1..], LetterLimit) by {
        assert forall j :: 1 <= j < |ts| ==> ts[1..][j - 1] == ts[j];
      }
      Shown(ts[0]) + Display(ts[1..])
  }

  /** Text free of carets passes through unchanged. */
  lemma {:induction false} FixSkips(d: string, t: string)
    requires '^' !in d
    ensures FixExponents(d + t) == d + FixExponents(t)
    decreases |d|
  {
    if d == [] {
      assert d + t == t;
    } else {
      var s := d + t;
      assert s[0] == d[0];
      assert s[1..] == d[1..] + t;
      assert FixExponents(s) == [d[0]] + FixExponents(s[1..]);
      FixSkips(d[1..], t);
      assert [d[0]] + d[1..] == d;
    }
  }

  /** An exponent followed by a non-digit is braced exactly when it is
      negative or has two or more digits. */
  lemma {:induction false} FixPow(e: int, r: string)
    requires r == [] || !IsDigit(r[0])
    ensures FixExponents("^" + IntToString(e) + r) == "^" + Braced(e) + FixExponents(r)
  {
    if e < 0 {
      FixPowNegative(e, r);
    } else if e < 10 {
      FixPowOneDigit(e, r);
    } else {
      FixPowLong(e, r);
    }
  }

  lemma {:induction false} FixPowNegative(e: int, r: string)
    requires e < 0
    requires r == [] || !IsDigit(r[0])
    ensures FixExponents("^" + IntToString(e) + r) == "^" + Braced(e) + FixExponents(r)
  {
    var d := NatToString(-e);
    NegativeText(e);
    FixNegative(d, r);
  }

  lemma NegativeText(e: int)
    requires e < 0
    ensures "^" + IntToString(e) == "^-" + NatToString(-e)
    ensures "^" + Braced(e) == "^{-" + NatToString(-e) + "}"
  {
    var d := NatToString(-e);
    Prepend2('^', '-', d);
    Prepend2('{', '-', d);
    Prepend2('^', '{', "-" + d + "}");
    assert "{" + IntToString(e) + "}" == "{-" + d + "}";
  }

  /** Two characters in front of a string, one at a time or together. */
  lemma Prepend2(a: char, b: char, s: string)
    ensures [a] + ([b] + s) == [a, b] + s
    ensures [a] + [b] + s == [a, b] + s
  {
  }

  lemma FixPowOneDigit(e: int, r: string)
    requires 0 <= e < 10
    requires r == [] || !IsDigit(r[0])
    ensures FixExponents("^" + IntToString(e) + r) == "^" + Braced(e) + FixExponents(r)
  {
    var d := NatToString(e);
    assert IntToString(e) == d && Braced(e) == d;
    FixOneDigit(d, r);
  }

  lemma {:induction false} FixPowLong(e: int, r: string)
    requires e >= 10
    requires r == [] || !IsDigit(r[0])
    ensures FixExponents("^" + IntToString(e) + r) == "^" + Braced(e) + FixExponents(r)
  {
    var d := NatToString(e);
    assert IntToString(e) == d;
    assert Braced(e) == "{" + d + "}";
    assert "^" + Braced(e) == "^{" + d + "}";
    FixLong(d, r);
  }

  lemma {:induction false} FixNegative(d: string, r: string)
    requires |d| > 0 && AllDigits(d)
    requires r == [] || !IsDigit(r[0])
    ensures FixExponents("^-" + d + r) == "^{-" + d + "}" + FixExponents(r)
  {
    var s := "^-" + d + r;
    assert s[2..] == d + r;
    DigitRunOf(d, r);
    assert s[2 + |d|..] == r;
  }

  lemma FixOneDigit(d: string, r: string)
    requires |d| == 1 && AllDigits(d)
    requires r == [] || !IsDigit(r[0])
    ensures FixExponents("^" + d + r) == "^" + d + FixExponents(r)
  {
    FixCaretDigit(d, r);
    FixSkips(d, r);
    Assoc3("^", d, FixExponents(r));
  }

  /** A caret before a single digit is kept as it is. */
  lemma FixCaretDigit(d: string, r: string)
    requires |d| == 1 && AllDigits(d)
    requires r == [] || !IsDigit(r[0])
    ensures FixExponents("^" + d + r) == "^" + FixExponents(d + r)
  {
    var s := "^" + d + r;
    assert s[0] == '^' && s[1] == d[0];
    assert |s| > 2 ==> s[2] == r[0];
    assert s[1..] == d + r;
  }

  lemma Assoc3(a: string, b: string, c: string)
    ensures a + (b + c) == a + b + c
  {
  }

  lemma {:induction false} FixLong(d: string, r: string)
    requires |d| > 1 && AllDigits(d)
    requires r == [] || !IsDigit(r[0])
    ensures FixExponents("^" + d + r) == "^{" + d + "}" + FixExponents(r)
  {
    var s := "^" + d + r;
    assert s[1..] == d + r;
    DigitRunOf(d, r);
    assert s[1 + |d|..] == r;
  }

  // ---- the whole clean-up on tokens ----

  /** Every token as printed, exponents braced. */
  function Braces(ts: seq<Token>): string
  {
    if ts == [] then []
    else (if ts[0].Pow? then "^" + Braced(ts[0].e) else TokenText(ts[0])) + Braces(ts[1..])
  }

  /** Lettering keeps the tokens well formed. */
  lemma {:induction false} LetteredWellFormed(ts: seq<Token>)
    requires WellFormed(ts)
    requires GensAtMost(ts, LetterLimit)
    ensures WellFormed(Lettered(ts))
    decreases |ts|
  {
    if ts != [] {
      var rest := ts[1..];
      assert forall j :: 0 <= j < |rest| ==> rest[j] == ts[j + 1];
      LetteredWellFormed(rest);
      assert Lettered(ts)[1..] == Lettered(rest);
    }
  }

  /** Bracing exponents touches the exponent tokens alone. */
  lemma {:induction false} FixTokens(ts: seq<Token>)
    requires WellFormed(ts)
    ensures FixExponents(Render(ts)) == Braces(ts)
    decreases |ts|
  {
    if ts != [] {
      var rest := ts[1..];
      FixTokens(rest);
      var r := Render(rest);
      match ts[0]
      case Pow(e) =>
        RenderStart(rest);
        FixPow(e, r);
      case Gen(k) =>
        assert '^' !in TokenText(ts[0]);
        FixSkips(TokenText(ts[0]), r);
      case Chr(c) =>
        FixSkips([c], r);
      case Caret(c) =>
        FixCaretLetter(c, r);
      case Text(t) =>
        FixSkips(t, r);
    }
  }

  /** A caret before a character that is neither a digit nor a minus sign
      is kept as it is. */
  lemma FixCaretLetter(c: char, r: string)
    requires !IsDigit(c) && c != '-' && c != '^'
    ensures FixExponents("^" + [c] + r) == "^" + [c] + FixExponents(r)
  {
    FixCaretStep(c, r);
    FixSkips([c], r);
    assert "^" + [c] + FixExponents(r) == "^" + ([c] + FixExponents(r));
  }

  lemma FixCaretStep(c: char, r: string)
    requires !IsDigit(c) && c != '-'
    ensures FixExponents("^" + [c] + r) == "^" + FixExponents([c] + r)
  {
    var s := "^" + [c] + r;
    assert s[0] == '^' && s[1] == c;
    assert s[1..] == [c] + r;
  }

  /** Dropping the stars from braced, lettered tokens leaves what the reader sees. */
  lemma {:induction false} StarsTokens(ts: seq<Token>)
    requires GensAtMost(ts, LetterLimit)
    ensures RemoveChar(Braces(Lettered(ts)), '*') == Display(ts)
    decreases |ts|
  {
    if ts != [] {
      var rest := ts[1..];
      assert forall j :: 0 <= j < |rest| ==> rest[j] == ts[j + 1];
      StarsTokens(rest);
      var us := Lettered(ts);
      assert us[1..] == Lettered(rest);
      var head := if us[0].Pow? then "^" + Braced(us[0].e) else TokenText(us[0]);
      assert Braces(us) == head + Braces(Lettered(rest));
      RemoveCharAppend(head, Braces(Lettered(rest)), '*');
      assert GensAtMost([ts[0]], LetterLimit) by {
        assert [ts[0]][0] == ts[0];
      }
      StarsHead(ts[0]);
    }
  }

  /** One token, lettered and braced, with its stars dropped. */
  lemma StarsHead(tk: Token)
    requires tk.Gen? ==> 1 <= tk.index <= LetterLimit
    requires GensAtMost([tk], LetterLimit)
    ensures var u := if tk.Gen? then Chr(Letter(tk.index - 1)) else tk;
      RemoveChar(if u.Pow? then "^" + Braced(u.e) else TokenText(u), '*') == Shown(tk)
  {
    assert [tk][0] == tk;
    match tk
    case Pow(e) =>
      BracedNoStar(e);
      RemoveCharAbsent("^" + Braced(e), '*');
    case Gen(k) =>
      RemoveCharAbsent([Letter(k - 1)], '*');
    case Caret(c) =>
      assert RemoveChar("^" + [c], '*') == RemoveChar(['^'] + [c], '*');
    case Chr(c) =>
      assert RemoveChar([c], '*') == RemoveChar([] + [c], '*');
    case Text(t) =>
  }

  lemma BracedNoStar(e: int)
    ensures '*' !in "^" + Braced(e)
  {
    var d := IntToString(e);
    assert forall m :: 0 <= m < |d| ==> IsDigit(d[m]) || d[m] == '-';
  }

  /** The relator clean-up of `presentation` on any well-formed text:
      generator names become letters (highest index first, so `f10` is
      never read as `f1` followed by `0`), exponents that are negative or
      have two or more digits are braced, and no star remains; all other
      text is kept in order. */
  lemma NormaliseTokens(ts: seq<Token>, ngens: nat)
    requires WellFormed(ts)
    requires ngens <= LetterLimit
    requires GensAtMost(ts, ngens)
    ensures GensAtMost(ts, LetterLimit)
    ensures Normalise(Render(ts), ngens) == Display(ts)
    ensures '*' !in Normalise(Render(ts), ngens)
  {
    SubstGensTokens(ts, ngens);
    LetteredWellFormed(ts);
    FixTokens(Lettered(ts));
    StarsTokens(ts);
  }

  // ---- joining token lists ----

  /** A printed word that the clean-up handles: well formed, with
      generators `f1` to `f<n>` only. */
  predicate WordOk(ts: seq<Token>, n: nat) {
    WellFormed(ts) && GensAtMost(ts, n)
  }

  lemma RenderOne(tk: Token)
    ensures Render([tk]) == TokenText(tk)
  {
    assert [tk][1..] == [];
  }

  /** Every word of the list is handled. */
  predicate AllWordsOk(tss: seq<seq<Token>>, n: nat) {
    forall i :: 0 <= i < |tss| ==> WordOk(tss[i], n)
  }

  lemma AllWordsAppend(a: seq<seq<Token>>, b: seq<seq<Token>>, n: nat)
    requires AllWordsOk(a, n) && AllWordsOk(b, n)
    ensures AllWordsOk(a + b, n)
  {
    assert forall i :: 0 <= i < |a + b| ==> (a + b)[i] == if i < |a| then a[i] else b[i - |a|];
  }

  /** A caret between two characters, then `=` and a word. */
  lemma RenderCaret(x: char, y: char, w: seq<Token>)
    ensures Render([Chr(x), Caret(y), Text("=")] + w) == [x] + "^" + [y] + "=" + Render(w)
  {
    var t := [Chr(x), Caret(y), Text("=")] + w;
    var t1 := [Caret(y), Text("=")] + w;
    var t2 := [Text("=")] + w;
    assert t[0] == Chr(x) && t[1..] == t1;
    assert t1[0] == Caret(y) && t1[1..] == t2;
    assert t2[0] == Text("=") && t2[1..] == w;
    calc {
      Render(t);
      [x] + Render(t1);
      [x] + ("^" + [y] + Render(t2));
      [x] + ("^" + [y] + ("=" + Render(w)));
    }
  }

  lemma {:induction false} RenderAppend(a: seq<Token>, b: seq<Token>)
    ensures Render(a + b) == Render(a) + Render(b)
    decreases |a|
  {
    if a == [] {
      assert a + b == b;
    } else {
      assert (a + b)[0] == a[0];
      assert (a + b)[1..] == a[1..] + b;
      RenderAppend(a[1..], b);
    }
  }

  /** Two handled words side by side form a handled word, unless a digit
      would run into the token before it. */
  lemma {:induction false} WordAppend(a: seq<Token>, b: seq<Token>, n: nat)
    requires WordOk(a, n) && WordOk(b, n)
    requires a != [] && b != [] && !a[|a| - 1].Text? ==> !StartsWithDigit(b[0])
    ensures WordOk(a + b, n)
    decreases |a|
  {
    if a == [] {
      assert a + b == b;
    } else {
      var rest := a[1..];
      assert forall j :: 0 <= j < |rest| ==> rest[j] == a[j + 1];
      if rest != [] {
        assert rest[|rest| - 1] == a[|a| - 1];
      }
      WordAppend(rest, b, n);
      assert (a + b)[1..] == rest + b;
      assert |a + b| > 1 ==> (a + b)[1] == if rest != [] then a[1] else b[0];
      assert forall j :: 0 <= j < |a + b| ==> (a + b)[j] == if j < |a| then a[j] else b[j - |a|];
    }
  }

  /** `sep.join(...)` on words: the separator is a piece of plain text. */
  function JoinTokens(tss: seq<seq<Token>>, sep: string): seq<Token>
  {
    if |tss| == 0 then []
    else if |tss| == 1 then tss[0]
    else tss[0] + [Text(sep)] + JoinTokens(tss[1..], sep)
  }

  /** The text of each word. */
  function Renders(tss: seq<seq<Token>>): (r: seq<string>)
    ensures |r| == |tss|
    ensures forall i :: 0 <= i < |tss| ==> r[i] == Render(tss[i])
  {
    seq(|tss|, i requires 0 <= i < |tss| => Render(tss[i]))
  }

  /** Joining the words and then printing them is joining their texts. */
  lemma {:induction false} RenderJoin(tss: seq<seq<Token>>, sep: string)
    ensures Render(JoinTokens(tss, sep)) == Join(Renders(tss), sep)
    decreases |tss|
  {
    if |tss| > 1 {
      RenderJoin(tss[1..], sep);
      assert Renders(tss[1..]) == Renders(tss)[1..];
      RenderAppend(tss[0] + [Text(sep)], JoinTokens(tss[1..], sep));
      RenderAppend(tss[0], [Text(sep)]);
      assert Render([Text(sep)]) == sep + Render([]);
    }
  }

  /** Handled words joined by plain text that does not start with a digit
      form a handled word. */
  lemma {:induction false} WordJoin(tss: seq<seq<Token>>, sep: string, n: nat)
    requires AllWordsOk(tss, n)
    requires TokenOk(Text(sep)) && !IsDigit(sep[0])
    ensures WordOk(JoinTokens(tss, sep), n)
    decreases |tss|
  {
    if |tss| > 1 {
      assert forall i :: 0 <= i < |tss| - 1 ==> tss[1..][i] == tss[i + 1];
      WordJoin(tss[1..], sep, n);
      var s := [Text(sep)];
      assert s[1..] == [];
      assert WordOk(s, n);
      WordAppend(tss[0], s, n);
      WordAppend(tss[0] + s, JoinTokens(tss[1..], sep), n);
    }
  }
}
