/** String operations the application uses: trim, indexOf, split, join, toLowerCase, includes,
    parseInt on digit strings and number-to-string. Strings are sequences of chars. */
module Text {
  import opened Wrappers

  /** The white space String.prototype.trim removes (the ASCII controls, space, no-break space, BOM). */
  predicate IsSpace(c: char) {
    c == ' ' || c == '\t' || c == '\n' || c == '\r' || c == '\U{0B}' || c == '\U{0C}'
    || c == '\U{A0}' || c == '\U{FEFF}'
  }

  predicate IsBlank(s: string) {
    forall i :: 0 <= i < |s| ==> IsSpace(s[i])
  }

  function TrimStart(s: string): (r: string)
    ensures |r| <= |s| && r == s[|s| - |r|..]
    ensures forall i :: 0 <= i < |s| - |r| ==> IsSpace(s[i])
    ensures r == [] || !IsSpace(r[0])
  {
    if |s| > 0 && IsSpace(s[0]) then
      var r := TrimStart(s[1..]);
      assert s[1..][|s[1..]| - |r|..] == s[|s| - |r|..];
      assert forall i :: 1 <= i < |s| ==> s[i] == s[1..][i - 1];
      r
    else s
  }

  function TrimEnd(s: string): (r: string)
    ensures |r| <= |s| && r == s[..|r|]
    ensures forall i :: |r| <= i < |s| ==> IsSpace(s[i])
    ensures r == [] || !IsSpace(r[|r| - 1])
  {
    if |s| > 0 && IsSpace(s[|s| - 1]) then TrimEnd(s[..|s| - 1]) else s
  }

  /** String.prototype.trim: the text is empty exactly when the input was all white space. */
  function Trim(s: string): (r: string)
    ensures r == [] || (!IsSpace(r[0]) && !IsSpace(r[|r| - 1]))
    ensures r == [] <==> IsBlank(s)
    ensures |r| <= |s|
  {
    var t := TrimStart(s);
    var r := TrimEnd(t);
    TrimEndBlank(t);
    r
  }

  /** Trimming the end leaves nothing only from white space. */
  lemma TrimEndBlank(s: string)
    ensures TrimEnd(s) == [] ==> IsBlank(s)
  {
  }

  lemma TrimIdempotent(s: string)
    ensures Trim(Trim(s)) == Trim(s)
  {
    var r := Trim(s);
    if r != [] {
      assert TrimStart(r) == r;
      assert TrimEnd(r) == r;
    }
  }

  /** Text with no white space at either end is left as it is. */
  lemma TrimUnpadded(s: string)
    requires s != [] && !IsSpace(s[0]) && !IsSpace(s[|s| - 1])
    ensures Trim(s) == s
  {
    assert TrimStart(s) == s;
    assert TrimEnd(s) == s;
  }

  /** `s || fallback` on an optional string: an absent or empty string gives the fallback. */
  function OrElse(s: Option<string>, fallback: string): (r: string)
    ensures r == fallback || (s.Some? && s.value != "" && r == s.value)
  {
    if s.Some? && s.value != "" then s.value else fallback
  }

  /** An optional string that is absent when empty, as `value || null` / `value || undefined` store it. */
  function NonEmpty(s: Option<string>): (r: Option<string>)
    ensures r.Some? <==> s.Some? && s.value != ""
    ensures r.Some? ==> r == s
  {
    if s.Some? && s.value != "" then s else None
  }

  // ----- searching -----

  predicate OccursAt(s: string, pat: string, i: int) {
    0 <= i && i + |pat| <= |s| && s[i..i + |pat|] == pat
  }

  function IndexFrom(s: string, pat: string, i: nat): (r: Option<nat>)
    requires i <= |s|
    ensures r.Some? ==> i <= r.value && OccursAt(s, pat, r.value)
    ensures r.Some? ==> forall j :: i <= j < r.value ==> !OccursAt(s, pat, j)
    ensures r.None? ==> forall j :: i <= j ==> !OccursAt(s, pat, j)
    decreases |s| - i
  {
    if i + |pat| > |s| then None
    else if s[i..i + |pat|] == pat then Some(i)
    else IndexFrom(s, pat, i + 1)
  }

  /** String.prototype.indexOf: the first position where `pat` occurs. */
  function IndexOf(s: string, pat: string): (r: Option<nat>)
    ensures r.Some? ==> OccursAt(s, pat, r.value) && forall j :: 0 <= j < r.value ==> !OccursAt(s, pat, j)
    ensures r.None? ==> forall j :: !OccursAt(s, pat, j)
  {
    IndexFrom(s, pat, 0)
  }

  /** String.prototype.includes. */
  predicate Contains(s: string, pat: string) {
    IndexOf(s, pat).Some?
  }

  lemma ContainsMeansOccurs(s: string, pat: string)
    ensures Contains(s, pat) <==> exists i :: OccursAt(s, pat, i)
  {
    if !Contains(s, pat) {
      forall i ensures !OccursAt(s, pat, i) { }
    }
  }

  lemma IndexOfIs(s: string, pat: string, k: nat)
    requires OccursAt(s, pat, k)
    requires forall j :: 0 <= j < k ==> !OccursAt(s, pat, j)
    ensures IndexOf(s, pat) == Some(k)
  {
  }

  lemma IndexOfNone(s: string, pat: string)
    requires |pat| > 0
    requires forall j :: 0 <= j < |s| ==> !OccursAt(s, pat, j)
    ensures IndexOf(s, pat) == None
  {
  }

  predicate StartsWith(s: string, prefix: string) {
    |prefix| <= |s| && s[..|prefix|] == prefix
  }

  // ----- split and join -----

  /** String.prototype.split with a non-empty literal separator. */
  function Split(s: string, sep: string): (parts: seq<string>)
    requires |sep| > 0
    ensures |parts| >= 1
    decreases |s|
  {
    match IndexOf(s, sep)
    case None => [s]
    case Some(k) => [s[..k]] + Split(s[k + |sep|..], sep)
  }

  /** Array.prototype.join. */
  function Join(parts: seq<string>, sep: string): string {
    if |parts| == 0 then ""
    else if |parts| == 1 then parts[0]
    else parts[0] + sep + Join(parts[1..], sep)
  }

  lemma {:induction false} JoinSplit(s: string, sep: string)
    requires |sep| > 0
    ensures Join(Split(s, sep), sep) == s
    decreases |s|
  {
    match IndexOf(s, sep)
    case None =>
      assert Split(s, sep) == [s];
    case Some(k) =>
      var rest := s[k + |sep|..];
      assert Split(s, sep) == [s[..k]] + Split(rest, sep);
      JoinSplit(rest, sep);
      JoinCons(s[..k], Split(rest, sep), sep);
      Reassemble(s, sep, k);
  }

  lemma JoinCons(a: string, tail: seq<string>, sep: string)
    requires |tail| >= 1
    ensures Join([a] + tail, sep) == a + sep + Join(tail, sep)
  {
    assert ([a] + tail)[1..] == tail;
  }

  lemma Reassemble(s: string, sep: string, k: nat)
    requires OccursAt(s, sep, k)
    ensures s == s[..k] + sep + s[k + |sep|..]
  {
    assert s == s[..k] + s[k..k + |sep|] + s[k + |sep|..];
  }

  /** The text before the first occurrence holds no occurrence. */
  lemma BeforeFirstIsFree(s: string, sep: string, k: nat)
    requires |sep| > 0 && IndexOf(s, sep) == Some(k)
    ensures !Contains(s[..k], sep)
  {
    var a := s[..k];
    forall j | 0 <= j < |a| ensures !OccursAt(a, sep, j) {
      if j + |sep| <= |a| {
        assert a[j..j + |sep|] == s[j..j + |sep|];
        assert !OccursAt(s, sep, j);
      }
    }
    IndexOfNone(a, sep);
  }

  /** No piece of a split holds the separator. */
  lemma {:induction false} SplitPiecesFree(s: string, sep: string)
    requires |sep| > 0
    ensures forall i :: 0 <= i < |Split(s, sep)| ==> !Contains(Split(s, sep)[i], sep)
    decreases |s|
  {
    match IndexOf(s, sep)
    case None =>
    case Some(k) =>
      BeforeFirstIsFree(s, sep, k);
      SplitPiecesFree(s[k + |sep|..], sep);
  }

  /** No character of `s` is `c`. */
  predicate Avoids(s: string, c: char) {
    forall i :: 0 <= i < |s| ==> s[i] != c
  }

  /** The first occurrence of the separator after a prefix that avoids its first character. */
  lemma IndexOfAfterPrefix(a: string, sep: string, b: string)
    requires |sep| > 0 && Avoids(a, sep[0])
    ensures IndexOf(a + sep + b, sep) == Some(|a|)
  {
    var s := a + sep + b;
    assert s[|a|..|a| + |sep|] == sep;
    forall j | 0 <= j < |a| ensures !OccursAt(s, sep, j) {
      assert s[j] == a[j];
    }
    IndexOfIs(s, sep, |a|);
  }

  lemma IndexOfAvoiding(a: string, sep: string)
    requires |sep| > 0 && Avoids(a, sep[0])
    ensures IndexOf(a, sep) == None
  {
    forall j | 0 <= j < |a| ensures !OccursAt(a, sep, j) {
    }
    IndexOfNone(a, sep);
  }

  /** A string without some character of the separator holds no occurrence of it. */
  lemma IndexOfAvoidingAt(a: string, sep: string, k: nat)
    requires k < |sep| && Avoids(a, sep[k])
    ensures IndexOf(a, sep) == None
  {
    forall j | 0 <= j < |a| ensures !OccursAt(a, sep, j) {
      if j + |sep| <= |a| {
        assert a[j..j + |sep|][k] == a[j + k];
      }
    }
    IndexOfNone(a, sep);
  }

  /** Two pieces joined by a separator whose second character neither piece holds (and differs from
      its first) split back into the two pieces. */
  lemma SplitPair(a: string, sep: string, b: string)
    requires |sep| >= 2 && sep[0] != sep[1] && Avoids(a, sep[1]) && Avoids(b, sep[1])
    ensures Split(a + sep + b, sep) == [a, b]
  {
    var s := a + sep + b;
    assert s[|a|..|a| + |sep|] == sep;
    forall j | 0 <= j < |a| ensures !OccursAt(s, sep, j) {
      if j + 1 < |a| {
        assert s[j + 1] == a[j + 1];
      } else {
        assert s[j + 1] == sep[0];
      }
      if j + |sep| <= |s| {
        assert s[j..j + |sep|][1] == s[j + 1];
      }
    }
    IndexOfIs(s, sep, |a|);
    assert s[|a| + |sep|..] == b;
    forall j | 0 <= j < |b| ensures !OccursAt(b, sep, j) {
      if j + |sep| <= |b| {
        assert b[j..j + |sep|][1] == b[j + 1];
      }
    }
    IndexOfNone(b, sep);
    assert s[..|a|] == a;
  }

  /** A join holds a character only when a piece or the separator does. */
  lemma {:induction false} JoinAvoids(parts: seq<string>, sep: string, c: char)
    requires Avoids(sep, c)
    requires forall i :: 0 <= i < |parts| ==> Avoids(parts[i], c)
    ensures Avoids(Join(parts, sep), c)
  {
    if |parts| > 1 {
      JoinAvoids(parts[1..], sep, c);
      var rest := Join(parts[1..], sep);
      forall i | 0 <= i < |parts[0] + sep + rest| ensures (parts[0] + sep + rest)[i] != c {
        if i < |parts[0]| {
        } else if i < |parts[0]| + |sep| {
          assert (parts[0] + sep + rest)[i] == sep[i - |parts[0]|];
        } else {
          assert (parts[0] + sep + rest)[i] == rest[i - |parts[0]| - |sep|];
        }
      }
    }
  }

  /** Splitting a joined list gives the list back when no piece holds the separator's first character. */
  lemma {:induction false} SplitJoin(parts: seq<string>, sep: string)
    requires |sep| > 0 && |parts| >= 1
    requires forall i :: 0 <= i < |parts| ==> Avoids(parts[i], sep[0])
    ensures Split(Join(parts, sep), sep) == parts
  {
    if |parts| == 1 {
      IndexOfAvoiding(parts[0], sep);
    } else {
      var rest := Join(parts[1..], sep);
      IndexOfAfterPrefix(parts[0], sep, rest);
      var s := parts[0] + sep + rest;
      assert s[|parts[0]| + |sep|..] == rest;
      assert s[..|parts[0]|] == parts[0];
      SplitJoin(parts[1..], sep);
    }
  }

  // ----- case -----

  function LowerChar(c: char): char {
    if 'A' <= c <= 'Z' then (c as int + 32) as char else c
  }

  /** String.prototype.toLowerCase on ASCII letters. */
  function ToLower(s: string): (r: string)
    ensures |r| == |s|
    ensures forall i :: 0 <= i < |s| ==> r[i] == LowerChar(s[i])
  {
    seq(|s|, i requires 0 <= i < |s| => LowerChar(s[i]))
  }

  /** Lower-casing twice is lower-casing once. */
  lemma ToLowerIdempotent(s: string)
    ensures ToLower(ToLower(s)) == ToLower(s)
  {
    var once := ToLower(s);
    forall i | 0 <= i < |s| ensures ToLower(once)[i] == once[i] {
      assert once[i] == LowerChar(s[i]);
    }
  }

  /** Case-insensitive `includes`, as the search boxes use it. */
  predicate ContainsIgnoreCase(s: string, query: string) {
    Contains(ToLower(s), ToLower(query))
  }

  lemma EmptyQueryMatches(s: string)
    ensures ContainsIgnoreCase(s, "")
  {
    assert OccursAt(ToLower(s), ToLower(""), 0);
    ContainsMeansOccurs(ToLower(s), ToLower(""));
  }

  // ----- digits -----

  predicate IsDigit(c: char) {
    '0' <= c <= '9'
  }

  predicate AllDigits(s: string) {
    forall i :: 0 <= i < |s| ==> IsDigit(s[i])
  }

  function DigitChar(d: nat): (c: char)
    requires d < 10
    ensures IsDigit(c)
  {
    ('0' as int + d) as char
  }

  /** parseInt of a string made of decimal digits. */
  function DigitsValue(s: string): nat
    requires AllDigits(s)
  {
    if s == [] then 0 else DigitsValue(s[..|s| - 1]) * 10 + (s[|s| - 1] as int - '0' as int)
  }

  /** Number.prototype.toString for a non-negative integer: decimal, no leading zero. */
  function NatToString(n: nat): (r: string)
    ensures |r| >= 1 && AllDigits(r)
    ensures n < 10 ==> |r| == 1
    ensures n >= 10 ==> r[0] != '0'
  {
    if n < 10 then [DigitChar(n)] else NatToString(n / 10) + [DigitChar(n % 10)]
  }

  lemma {:induction false} NatToStringValue(n: nat)
    ensures DigitsValue(NatToString(n)) == n
  {
    if n >= 10 {
      NatToStringValue(n / 10);
      var r := NatToString(n);
      assert r[..|r| - 1] == NatToString(n / 10);
    }
  }

  /** Numbers below 100 print with at most two digits. */
  lemma NatToStringShort(n: nat)
    requires n < 100
    ensures |NatToString(n)| <= 2
  {
    if n >= 10 {
      assert |NatToString(n / 10)| == 1;
    }
  }

  /** A two-digit numeral is the zero-padded print of its value. */
  lemma TwoDigitsRoundTrip(s: string)
    requires |s| == 2 && AllDigits(s)
    ensures PadStart(NatToString(DigitsValue(s)), 2) == s
  {
    TwoDigitsValue(s);
    if s[0] == '0' {
      LeadingZeroRoundTrip(s);
    } else {
      var v := DigitsValue(s);
      assert v == (s[0] as int - '0' as int) * 10 + (s[1] as int - '0' as int);
      NoLeadingZeroRoundTrip(s);
    }
  }

  lemma LeadingZeroRoundTrip(s: string)
    requires |s| == 2 && AllDigits(s) && s[0] == '0'
    requires DigitsValue(s) == s[1] as int - '0' as int
    ensures PadStart(NatToString(DigitsValue(s)), 2) == s
  {
    DigitCharOf(s[1]);
    var p := NatToString(DigitsValue(s));
    assert p == [s[1]];
    assert seq(1, _ => '0') == [s[0]];
    assert s == [s[0]] + [s[1]];
  }

  lemma NoLeadingZeroRoundTrip(s: string)
    requires |s| == 2 && AllDigits(s) && s[0] != '0'
    ensures PadStart(NatToString((s[0] as int - '0' as int) * 10 + (s[1] as int - '0' as int)), 2) == s
  {
    PrintTwoDigits(s);
  }

  lemma TwoDigitsValue(s: string)
    requires |s| == 2 && AllDigits(s)
    ensures DigitsValue(s) == (s[0] as int - '0' as int) * 10 + (s[1] as int - '0' as int)
  {
    var head := s[..1];
    assert head[..0] == [] && head[0] == s[0];
    assert DigitsValue(head) == s[0] as int - '0' as int;
    assert s[..|s| - 1] == head;
  }

  lemma DigitCharOf(c: char)
    requires IsDigit(c)
    ensures DigitChar(c as int - '0' as int) == c
  {
    assert '0' as int + (c as int - '0' as int) == c as int;
    assert (c as int) as char == c;
  }

  /** A two-digit numeral without a leading zero is the print of its value. */
  lemma PrintTwoDigits(s: string)
    requires |s| == 2 && AllDigits(s) && s[0] != '0'
    ensures NatToString((s[0] as int - '0' as int) * 10 + (s[1] as int - '0' as int)) == s
  {
    var d0 := s[0] as int - '0' as int;
    var d1 := s[1] as int - '0' as int;
    var v := d0 * 10 + d1;
    assert v / 10 == d0 && v % 10 == d1;
    DigitCharOf(s[0]);
    DigitCharOf(s[1]);
    assert NatToString(v) == NatToString(d0) + [DigitChar(d1)];
    assert s == [s[0]] + [s[1]];
  }

  lemma DigitsAvoidDash(s: string)
    requires AllDigits(s)
    ensures Avoids(s, '-')
  {
  }

  /** String.prototype.padStart(width, "0"). */
  function PadStart(s: string, width: nat): (r: string)
    ensures |r| == if |s| >= width then |s| else width
    ensures r[|r| - |s|..] == s
    ensures forall i :: 0 <= i < |r| - |s| ==> r[i] == '0'
  {
    if |s| >= width then s else seq(width - |s|, _ => '0') + s
  }

  lemma {:induction false} DigitsValueAppend(a: string, b: string)
    requires AllDigits(a) && AllDigits(b)
    ensures AllDigits(a + b)
    ensures DigitsValue(a + b) == DigitsValue(a) * Pow10(|b|) + DigitsValue(b)
    decreases |b|
  {
    if b == [] {
      assert a + b == a;
    } else {
      var c := a + b;
      var init := b[..|b| - 1];
      var d := b[|b| - 1] as int - '0' as int;
      assert c[..|c| - 1] == a + init;
      DigitsValueAppend(a, init);
      assert DigitsValue(c) == DigitsValue(a + init) * 10 + d;
      assert DigitsValue(b) == DigitsValue(init) * 10 + d;
      calc {
        DigitsValue(a + init) * 10 + d;
        (DigitsValue(a) * Pow10(|init|) + DigitsValue(init)) * 10 + d;
        { MulShift(DigitsValue(a), Pow10(|init|), DigitsValue(init)); }
        DigitsValue(a) * (Pow10(|init|) * 10) + DigitsValue(init) * 10 + d;
      }
    }
  }

  lemma MulShift(x: nat, p: nat, y: nat)
    ensures (x * p + y) * 10 == x * (p * 10) + y * 10
  {
  }

  function Pow10(n: nat): (p: nat)
    ensures p >= 1
  {
    if n == 0 then 1 else 10 * Pow10(n - 1)
  }

  lemma {:induction false} DigitsValueZeros(z: string)
    requires forall i :: 0 <= i < |z| ==> z[i] == '0'
    ensures AllDigits(z) && DigitsValue(z) == 0
  {
    if z != [] {
      DigitsValueZeros(z[..|z| - 1]);
    }
  }

  /** Zero padding keeps a digit string's value. */
  lemma PadStartValue(s: string, width: nat)
    requires AllDigits(s)
    ensures AllDigits(PadStart(s, width)) && DigitsValue(PadStart(s, width)) == DigitsValue(s)
  {
    var r := PadStart(s, width);
    var z := r[..|r| - |s|];
    assert r == z + s;
    DigitsValueZeros(z);
    DigitsValueAppend(z, s);
  }
}
