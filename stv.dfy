/**
 * The truth-value syntax check of the rule validator: a rule's strength/confidence
 * annotation is a string `(STV <strength> <confidence>)`, and `is_valid_stv`
 * decides it with the anchored regular expression
 *
 *     ^\(STV\s+[0-9]*\.?[0-9]+\s+[0-9]*\.?[0-9]+\)$
 *
 * under Python's `re.match`.  The module gives
 *   - the language of that expression, written declaratively (StvLanguage),
 *   - a recursive recogniser (IsValidStv) proved to decide exactly that language,
 *   - a scanning method (ScanStv) proved to agree with both.
 */
module StvSyntax {

  datatype Option<T> = None | Some(value: T)

  // ---------------------------------------------------------------------------
  // Character classes
  // ---------------------------------------------------------------------------

  /** `\s` in a Python 3 str pattern: the characters for which `str.isspace()` holds. */
  predicate IsSpace(c: char) {
    || ('\t' <= c <= '\r')            // tab, line feed, vertical tab, form feed, carriage return
    || ('\U{1C}' <= c <= '\U{1F}')    // file, group, record and unit separators
    || c == ' '
    || c == '\U{85}' || c == '\U{A0}' || c == '\U{1680}'
    || ('\U{2000}' <= c <= '\U{200A}')
    || c == '\U{2028}' || c == '\U{2029}' || c == '\U{202F}' || c == '\U{205F}' || c == '\U{3000}'
  }

  /** `[0-9]`: the ASCII digits only. */
  predicate IsDigit(c: char) {
    '0' <= c <= '9'
  }

  // ---------------------------------------------------------------------------
  // The language of the pattern, declaratively
  // ---------------------------------------------------------------------------

  ghost predicate AllSpace(w: string) {
    forall k :: 0 <= k < |w| ==> IsSpace(w[k])
  }

  ghost predicate AllDigits(d: string) {
    forall k :: 0 <= k < |d| ==> IsDigit(d[k])
  }

  /** `\s+` */
  ghost predicate Spaces(w: string) {
    |w| > 0 && AllSpace(w)
  }

  /** `n` is digits, a `.` at position `k`, and one or more digits. */
  ghost predicate DottedAt(n: string, k: int) {
    0 <= k < |n| - 1 && n[k] == '.' && AllDigits(n[..k]) && AllDigits(n[k + 1..])
  }

  /** `[0-9]*\.?[0-9]+`: either one or more digits, or digits, one `.`, and one or more digits. */
  ghost predicate Number(n: string) {
    || (|n| > 0 && AllDigits(n))
    || exists k :: DottedAt(n, k)
  }

  /** `b` is `(STV`, whitespace `w1`, number `n1`, whitespace `w2`, number `n2` and `)`. */
  ghost predicate BodySplit(b: string, w1: string, n1: string, w2: string, n2: string) {
    && b == "(STV" + w1 + n1 + w2 + n2 + ")"
    && Spaces(w1) && Number(n1) && Spaces(w2) && Number(n2)
  }

  /** `\(STV\s+N\s+N\)` with N the number pattern. */
  ghost predicate StvBody(b: string) {
    exists w1, n1, w2, n2 :: BodySplit(b, w1, n1, w2, n2)
  }

  /**
   * The strings `re.match` accepts: matching starts at position 0, and `$` holds at
   * the end of the string or just before a newline that ends it.
   */
  ghost predicate StvLanguage(t: string) {
    || StvBody(t)
    || (|t| > 0 && t[|t| - 1] == '\n' && StvBody(t[..|t| - 1]))
  }

  // ---------------------------------------------------------------------------
  // The recogniser
  // ---------------------------------------------------------------------------

  /** The end of the longest run of characters satisfying `p` that starts at `i`. */
  function Span(s: string, i: nat, p: char -> bool): (j: nat)
    requires i <= |s|
    ensures i <= j <= |s|
    ensures forall k :: i <= k < j ==> p(s[k])
    ensures j == |s| || !p(s[j])
    decreases |s| - i
  {
    if i < |s| && p(s[i]) then Span(s, i + 1, p) else i
  }

  /**
   * The end of the number that starts at `i`, if one does.  Digits are consumed
   * greedily; a `.` must be followed by at least one digit, and without a `.` at
   * least one digit is needed.
   */
  function NumberEnd(s: string, i: nat): (r: Option<nat>)
    requires i <= |s|
    ensures r.Some? ==> i < r.value <= |s|
  {
    var j := Span(s, i, IsDigit);
    if j < |s| && s[j] == '.' then
      var k := Span(s, j + 1, IsDigit);
      if k > j + 1 then Some(k) else None
    else if j > i then Some(j) else None
  }

  /**
   * `is_valid_stv(text)`: the pattern, recognised left to right.  It is total, and
   * what it accepts starts with `(STV` and whitespace and is at least as long as
   * `(STV 0 0)`; it decides exactly StvLanguage (IsValidStvIsLanguage).
   */
  function IsValidStv(text: string): (ok: bool)
    ensures ok ==> |text| >= 9 && text[..4] == "(STV" && IsSpace(text[4])
  {
    if |text| < 4 || text[..4] != "(STV" then false
    else
      var p := Span(text, 4, IsSpace);
      if p == 4 then false
      else match NumberEnd(text, p)
        case None => false
        case Some(q) =>
          var r := Span(text, q, IsSpace);
          if r == q then false
          else match NumberEnd(text, r)
            case None => false
            case Some(u) =>
              && u < |text| && text[u] == ')'
              && (u + 1 == |text| || (u + 2 == |text| && text[u + 1] == '\n'))
  }

  /** Where the parts of a body sit in it. */
  lemma BodyParts(b: string, w1: string, n1: string, w2: string, n2: string)
    requires b == "(STV" + w1 + n1 + w2 + n2 + ")"
    ensures |b| == 5 + |w1| + |n1| + |w2| + |n2|
    ensures b[..4] == "(STV"
    ensures b[4..4 + |w1|] == w1
    ensures b[4 + |w1|..4 + |w1| + |n1|] == n1
    ensures b[4 + |w1| + |n1|..4 + |w1| + |n1| + |w2|] == w2
    ensures b[4 + |w1| + |n1| + |w2|..|b| - 1] == n2
    ensures b[|b| - 1] == ')'
  {
    var a1 := "(STV" + w1;
    var a2 := a1 + n1;
    var a3 := a2 + w2;
    var a4 := a3 + n2;
    assert b == a4 + ")";
    assert b[..|a4|] == a4;
    assert a4[..|a3|] == a3 && a4[|a3|..] == n2;
    assert a3[..|a2|] == a2 && a3[|a2|..] == w2;
    assert a2[..|a1|] == a1 && a2[|a1|..] == n1;
    assert a1[..4] == "(STV" && a1[4..] == w1;
  }

  // ---------------------------------------------------------------------------
  // The recogniser decides the language
  // ---------------------------------------------------------------------------

  /** A run that stops where `p` first fails is the one Span finds. */
  lemma SpanExact(s: string, i: nat, j: nat, p: char -> bool)
    requires i <= j <= |s|
    requires forall k :: i <= k < j ==> p(s[k])
    requires j == |s| || !p(s[j])
    ensures Span(s, i, p) == j
  {
  }

  /** A number starts with a digit or `.` and ends with a digit. */
  lemma NumberEdges(n: string)
    requires Number(n)
    ensures |n| > 0 && (IsDigit(n[0]) || n[0] == '.') && IsDigit(n[|n| - 1])
  {
    if !(|n| > 0 && AllDigits(n)) {
      var k :| DottedAt(n, k);
      assert n[k + 1..][|n| - k - 2] == n[|n| - 1];
      if k > 0 {
        assert n[..k][0] == n[0];
      }
    }
  }

  /** A slice is all digits exactly when each of its positions holds a digit. */
  lemma AllDigitsSlice(s: string, i: nat, j: nat)
    requires i <= j <= |s|
    ensures AllDigits(s[i..j]) <==> forall k :: i <= k < j ==> IsDigit(s[k])
  {
    if AllDigits(s[i..j]) {
      forall k | i <= k < j ensures IsDigit(s[k]) { assert s[k] == s[i..j][k - i]; }
    }
  }

  lemma NumberEndSound(s: string, i: nat)
    requires i <= |s| && NumberEnd(s, i).Some?
    ensures Number(s[i..NumberEnd(s, i).value])
    ensures NumberEnd(s, i).value == |s| || !IsDigit(s[NumberEnd(s, i).value])
  {
    var q := NumberEnd(s, i).value;
    var n := s[i..q];
    var j := Span(s, i, IsDigit);
    if j < |s| && s[j] == '.' {
      var k := j - i;
      AllDigitsSlice(s, i, j);
      AllDigitsSlice(s, j + 1, q);
      assert n[..k] == s[i..j];
      assert n[k + 1..] == s[j + 1..q];
      assert DottedAt(n, k);
    } else {
      AllDigitsSlice(s, i, q);
    }
  }

  lemma NumberEndComplete(s: string, i: nat, q: nat)
    requires i <= q <= |s| && Number(s[i..q])
    requires q == |s| || (!IsDigit(s[q]) && s[q] != '.')
    ensures NumberEnd(s, i) == Some(q)
  {
    var n := s[i..q];
    if |n| > 0 && AllDigits(n) {
      DigitsEnd(s, i, q);
    } else {
      var k :| DottedAt(n, k);
      var m := i + k;
      assert s[m] == '.' by { assert s[m] == n[k]; }
      assert AllDigits(s[i..m]) by { assert s[i..m] == n[..k]; }
      assert AllDigits(s[m + 1..q]) by { assert s[m + 1..q] == n[k + 1..]; }
      DottedEnd(s, i, m, q);
    }
  }

  /** A run of digits on `[i, q)` ending before neither digit nor `.` is the number there. */
  lemma DigitsEnd(s: string, i: nat, q: nat)
    requires i < q <= |s| && AllDigits(s[i..q])
    requires q == |s| || (!IsDigit(s[q]) && s[q] != '.')
    ensures NumberEnd(s, i) == Some(q)
  {
    AllDigitsSlice(s, i, q);
    SpanExact(s, i, q, IsDigit);
  }

  /** Digits on `[i, m)`, a `.` at `m` and digits on `(m, q)` ending before a non-digit are the number there. */
  lemma DottedEnd(s: string, i: nat, m: nat, q: nat)
    requires i <= m < q - 1 && q <= |s| && s[m] == '.'
    requires AllDigits(s[i..m]) && AllDigits(s[m + 1..q])
    requires q == |s| || !IsDigit(s[q])
    ensures NumberEnd(s, i) == Some(q)
  {
    AllDigitsSlice(s, i, m);
    AllDigitsSlice(s, m + 1, q);
    SpanExact(s, i, m, IsDigit);
    SpanExact(s, m + 1, q, IsDigit);
  }

  /** A whole string is a number exactly when the number scan from 0 consumes all of it. */
  lemma NumberIsRecognised(n: string)
    ensures Number(n) <==> NumberEnd(n, 0) == Some(|n|)
  {
    assert n[0..|n|] == n;
    if Number(n) {
      NumberEndComplete(n, 0, |n|);
    }
    if NumberEnd(n, 0) == Some(|n|) {
      NumberEndSound(n, 0);
    }
  }

  /** A prefix cut at four points into the parts of a body is one. */
  lemma BodyFromCuts(t: string, p: nat, q: nat, r: nat, u: nat)
    requires 4 < p < q < r < u < |t| && t[..4] == "(STV" && t[u] == ')'
    requires forall k :: 4 <= k < p ==> IsSpace(t[k])
    requires forall k :: q <= k < r ==> IsSpace(t[k])
    requires Number(t[p..q]) && Number(t[r..u])
    ensures StvBody(t[..u + 1])
  {
    var w1, n1, w2, n2 := t[4..p], t[p..q], t[q..r], t[r..u];
    assert Spaces(w1) by {
      forall k | 0 <= k < |w1| ensures IsSpace(w1[k]) { assert w1[k] == t[4 + k]; }
    }
    assert Spaces(w2) by {
      forall k | 0 <= k < |w2| ensures IsSpace(w2[k]) { assert w2[k] == t[q + k]; }
    }
    assert t[..p] == t[..4] + w1;
    assert t[..q] == t[..p] + n1;
    assert t[..r] == t[..q] + w2;
    assert t[..u] == t[..r] + n2;
    assert t[..u + 1] == t[..u] + [t[u]];
    assert BodySplit(t[..u + 1], w1, n1, w2, n2);
  }

  lemma IsValidStvSound(t: string)
    requires IsValidStv(t)
    ensures StvLanguage(t)
  {
    var p := Span(t, 4, IsSpace);
    var q := NumberEnd(t, p).value;
    var r := Span(t, q, IsSpace);
    var u := NumberEnd(t, r).value;
    assert StvBody(t[..u + 1]) by {
      NumberEndSound(t, p);
      NumberEndSound(t, r);
      BodyFromCuts(t, p, q, r, u);
    }
    if u + 1 == |t| {
      assert t[..u + 1] == t;
    } else {
      assert t[..u + 1] == t[..|t| - 1];
    }
  }

  /** The recogniser's verdict once each of its scans is known. */
  lemma ScansDecide(t: string, p: nat, q: nat, r: nat, u: nat)
    requires |t| >= 4 && t[..4] == "(STV"
    requires 4 < p <= |t| && Span(t, 4, IsSpace) == p && NumberEnd(t, p) == Some(q)
    requires q < r <= |t| && Span(t, q, IsSpace) == r && NumberEnd(t, r) == Some(u)
    ensures IsValidStv(t) <==> u < |t| && t[u] == ')' && (u + 1 == |t| || (u + 2 == |t| && t[u + 1] == '\n'))
  {
  }

  /** Whitespace on `[i, p)` then a number on `[p, q)`, followed by neither digit nor `.`, scan as such. */
  lemma ScanSpacesNumber(t: string, i: nat, p: nat, q: nat)
    requires i < p < q < |t| && Spaces(t[i..p]) && Number(t[p..q])
    requires !IsDigit(t[q]) && t[q] != '.'
    ensures Span(t, i, IsSpace) == p
    ensures NumberEnd(t, p) == Some(q)
  {
    NumberEdges(t[p..q]);
    assert forall k :: i <= k < p ==> IsSpace(t[k]) by {
      forall k | i <= k < p ensures IsSpace(t[k]) { assert t[k] == t[i..p][k - i]; }
    }
    assert t[p] == t[p..q][0];
    SpanExact(t, i, p, IsSpace);
    NumberEndComplete(t, p, q);
  }

  /** Where the recogniser's scans stop on a string that starts with a body. */
  lemma BodyScans(t: string, b: string) returns (p: nat, q: nat, r: nat, u: nat)
    requires StvBody(b) && b <= t
    ensures |t| >= 4 && t[..4] == "(STV"
    ensures 4 < p <= |t| && Span(t, 4, IsSpace) == p && NumberEnd(t, p) == Some(q)
    ensures q < r <= |t| && Span(t, q, IsSpace) == r && NumberEnd(t, r) == Some(u)
    ensures u + 1 == |b| && t[u] == ')'
  {
    var w1, n1, w2, n2 :| BodySplit(b, w1, n1, w2, n2);
    BodyParts(b, w1, n1, w2, n2);
    p := 4 + |w1|;
    q := p + |n1|;
    r := q + |w2|;
    u := r + |n2|;
    assert b == t[..u + 1];
    assert t[..4] == b[..4];
    assert t[4..p] == w1 && t[p..q] == n1 && t[q..r] == w2 && t[r..u] == n2;
    assert t[q] == w2[0];
    assert t[u] == ')';
    ScanSpacesNumber(t, 4, p, q);
    ScanSpacesNumber(t, q, r, u);
  }

  /** The recogniser accepts every body, and a body followed by one newline. */
  lemma BodyRecognised(t: string, b: string)
    requires StvBody(b)
    requires t == b || t == b + "\n"
    ensures IsValidStv(t)
  {
    assert b <= t;
    var p, q, r, u := BodyScans(t, b);
    ScansDecide(t, p, q, r, u);
  }

  lemma IsValidStvComplete(t: string)
    requires StvLanguage(t)
    ensures IsValidStv(t)
  {
    if StvBody(t) {
      BodyRecognised(t, t);
    } else {
      var b := t[..|t| - 1];
      assert t == b + "\n";
      BodyRecognised(t, b);
    }
  }

  /** `is_valid_stv` holds of exactly the strings in the pattern's language. */
  lemma IsValidStvIsLanguage(t: string)
    ensures IsValidStv(t) <==> StvLanguage(t)
  {
    if IsValidStv(t) {
      IsValidStvSound(t);
    }
    if StvLanguage(t) {
      IsValidStvComplete(t);
    }
  }

  // ---------------------------------------------------------------------------
  // The scanner
  // ---------------------------------------------------------------------------

  /** Advances from `i` over the characters satisfying `p`. */
  method SkipWhile(s: string, i: nat, p: char -> bool) returns (j: nat)
    requires i <= |s|
    ensures j == Span(s, i, p)
  {
    j := i;
    while j < |s| && p(s[j])
      invariant i <= j <= |s|
      invariant Span(s, j, p) == Span(s, i, p)
      decreases |s| - j
    {
      j := j + 1;
    }
  }

  /** Scans a number starting at `i`; `ok` is false when none starts there. */
  method ScanNumber(s: string, i: nat) returns (ok: bool, j: nat)
    requires i <= |s|
    ensures ok <==> NumberEnd(s, i).Some?
    ensures ok ==> j == NumberEnd(s, i).value
  {
    j := SkipWhile(s, i, IsDigit);
    if j < |s| && s[j] == '.' {
      var k := SkipWhile(s, j + 1, IsDigit);
      ok, j := k > j + 1, k;
    } else {
      ok := j > i;
    }
  }

  /** `is_valid_stv`, as a scan over the string. */
  method ScanStv(text: string) returns (ok: bool)
    ensures ok == IsValidStv(text)
  {
    ok := false;
    if |text| >= 4 && text[..4] == "(STV" {
      var p := SkipWhile(text, 4, IsSpace);
      if p > 4 {
        var found, q := ScanNumber(text, p);
        if found {
          var r := SkipWhile(text, q, IsSpace);
          if r > q {
            var u;
            found, u := ScanNumber(text, r);
            if found {
              ok := u < |text| && text[u] == ')' && (u + 1 == |text| || (u + 2 == |text| && text[u + 1] == '\n'));
            }
          }
        }
      }
    }
  }

  // ---------------------------------------------------------------------------
  // Properties of the language
  // ---------------------------------------------------------------------------

  /**
   * Every accepted string starts with `(STV` at position 0, has whitespace right
   * after it, and ends with `)` or with `)` and one newline.
   */
  lemma AcceptedShape(t: string)
    requires StvLanguage(t)
    ensures |t| >= 9 && t[..4] == "(STV" && IsSpace(t[4])
    ensures t[|t| - 1] == ')' || (t[|t| - 1] == '\n' && t[|t| - 2] == ')')
  {
    var b := if StvBody(t) then t else t[..|t| - 1];
    assert StvBody(b);
    var w1, n1, w2, n2 :| BodySplit(b, w1, n1, w2, n2);
    BodyParts(b, w1, n1, w2, n2);
    NumberEdges(n1);
    NumberEdges(n2);
    assert b[4] == w1[0] by { assert b[4] == b[4..4 + |w1|][0]; }
    if b != t {
      assert t[..4] == b[..4];
      assert t[4] == b[4];
      assert t[|t| - 2] == b[|b| - 1];
    }
  }

  /** Numbers with and without a fractional part, and with no digit before the `.`. */
  lemma NumbersAccepted()
    ensures Number("5") && Number("0.5") && Number(".5")
  {
    assert DottedAt("0.5", 1) by { assert "0.5"[..1] == "0" && "0.5"[2..] == "5"; }
    assert DottedAt(".5", 0) by { assert ".5"[..0] == "" && ".5"[1..] == "5"; }
  }

  /** No trailing `.`, sign, exponent or second `.`. */
  lemma NumbersRejected()
    ensures !Number("5.") && !Number("-1") && !Number("1e3") && !Number("1.2.3")
  {
    NumberIsRecognised("5.");
    NumberIsRecognised("-1");
    NumberIsRecognised("1e3");
    NumberIsRecognised("1.2.3");
  }

  /** A well-formed annotation with both number forms (`0.5` and `.5`). */
  lemma AcceptsBothNumberForms()
    ensures StvLanguage("(STV 0.5 .5)")
  {
    NumbersAccepted();
    assert Spaces(" ");
    assert BodySplit("(STV 0.5 .5)", " ", "0.5", " ", ".5");
  }

  /** Any run of whitespace separates the parts, and one trailing newline is allowed. */
  lemma AcceptsWhitespaceRunsAndNewline()
    ensures StvLanguage("(STV\t1  10)\n")
  {
    var t := "(STV\t1  10)\n";
    assert Spaces("\t") && Spaces("  ");
    assert Number("1") && Number("10");
    assert BodySplit(t[..|t| - 1], "\t", "1", "  ", "10");
  }

  /** One number is too few. */
  lemma OneNumberRejected()
    ensures !StvLanguage("(STV 0.5)")
  {
    var t := "(STV 0.5)";
    assert !IsValidStv(t) by {
      SpanExact(t, 4, 5, IsSpace);
      DottedEnd(t, 5, 6, 8);
      SpanExact(t, 8, 8, IsSpace);
    }
    IsValidStvIsLanguage(t);
  }

  /** Three numbers are too many. */
  lemma ThreeNumbersRejected()
    ensures !StvLanguage("(STV 1 1 1)")
  {
    var t := "(STV 1 1 1)";
    assert !IsValidStv(t) by {
      SpanExact(t, 4, 5, IsSpace);
      DigitsEnd(t, 5, 6);
      SpanExact(t, 6, 7, IsSpace);
      DigitsEnd(t, 7, 8);
      ScansDecide(t, 5, 6, 7, 8);
    }
    IsValidStvIsLanguage(t);
  }

  /** Whitespace must follow `STV`. */
  lemma SeparatorRequired()
    ensures !StvLanguage("(STV0.5 0.5)")
  {
    var t := "(STV0.5 0.5)";
    SpanExact(t, 4, 4, IsSpace);
    IsValidStvIsLanguage(t);
  }

  /** Matching starts at the first character: a leading space, or nothing at all, is rejected. */
  lemma AnchoredAtStart()
    ensures !StvLanguage(" (STV 1 1)") && !StvLanguage("")
  {
    assert " (STV 1 1)"[..4] != "(STV" by { assert " (STV 1 1)"[0] == ' '; }
    IsValidStvIsLanguage(" (STV 1 1)");
    IsValidStvIsLanguage("");
  }

  /** After `)` only a single newline may come: not a space. */
  lemma SpaceAfterCloseRejected()
    ensures !StvLanguage("(STV 1 1) ")
  {
    var t := "(STV 1 1) ";
    assert !IsValidStv(t) by {
      SpanExact(t, 4, 5, IsSpace);
      DigitsEnd(t, 5, 6);
      SpanExact(t, 6, 7, IsSpace);
      DigitsEnd(t, 7, 8);
      ScansDecide(t, 5, 6, 7, 8);
    }
    IsValidStvIsLanguage(t);
  }

  /** After `)` only a single newline may come: not two. */
  lemma TwoNewlinesRejected()
    ensures !StvLanguage("(STV 1 1)\n\n")
  {
    var t := "(STV 1 1)\n\n";
    assert !IsValidStv(t) by {
      SpanExact(t, 4, 5, IsSpace);
      DigitsEnd(t, 5, 6);
      SpanExact(t, 6, 7, IsSpace);
      DigitsEnd(t, 7, 8);
      ScansDecide(t, 5, 6, 7, 8);
    }
    IsValidStvIsLanguage(t);
  }
}
