// The string operations of Go's standard library the issuer relies on: trimming,
// case folding, decimal integers, and the IP address parser.
module Text {
  import opened Basics

  // An IP address in its 16 byte form, so that net.IP.Equal is equality.
  type IP = nat

  // Unicode and IP syntax tables. EqualFold and ToLower work rune by rune: folding
  // compares one representative of each rune's case orbit.
  datatype Text = Text(lower: char -> char, fold: char -> char, parseIP: string -> Option<IP>)
  {
    // What the tables guarantee: a change of case never makes or removes a space, an
    // IP address is written without surrounding space, and whether a text is an IP
    // address, and which, does not depend on letter case.
    ghost predicate Valid() {
      && (forall c :: IsSpace(lower(c)) == IsSpace(c))
      && (forall c, d :: fold(c) == fold(d) ==> IsSpace(c) == IsSpace(d))
      && (forall s :: parseIP(s).Some? ==> s != "" && TrimSpace(s) == s)
      && (forall s, t :: EqualFold(s, t) ==> parseIP(s) == parseIP(t))
    }

    function ToLower(s: string): (r: string)
      ensures |r| == |s| && forall i :: 0 <= i < |s| ==> r[i] == lower(s[i])
    {
      seq(|s|, i requires 0 <= i < |s| => lower(s[i]))
    }

    predicate EqualFold(s: string, t: string) {
      |s| == |t| && forall i :: 0 <= i < |s| ==> fold(s[i]) == fold(t[i])
    }

    predicate ContainsFold(values: seq<string>, want: string) {
      exists i :: 0 <= i < |values| && EqualFold(values[i], want)
    }
  }

  predicate IsSpace(c: char) {
    || '\t' <= c <= '\r' || c == ' ' || c == '\U{0085}' || c == '\U{00A0}'
    || c == '\U{1680}' || '\U{2000}' <= c <= '\U{200A}'
    || c == '\U{2028}' || c == '\U{2029}' || c == '\U{202F}' || c == '\U{205F}' || c == '\U{3000}'
  }

  function TrimLeft(s: string): string {
    if s != "" && IsSpace(s[0]) then TrimLeft(s[1..]) else s
  }

  function TrimRight(s: string): string {
    if s != "" && IsSpace(s[|s| - 1]) then TrimRight(s[..|s| - 1]) else s
  }

  function TrimSpace(s: string): string {
    TrimRight(TrimLeft(s))
  }

  // No space at either end.
  predicate Trimmed(s: string) {
    s == "" || (!IsSpace(s[0]) && !IsSpace(s[|s| - 1]))
  }

  predicate AllSpace(s: string) {
    forall i :: 0 <= i < |s| ==> IsSpace(s[i])
  }

  lemma {:induction false} TrimLeftDrops(s: string)
    ensures var r := TrimLeft(s);
      && |r| <= |s| && r == s[|s| - |r|..] && AllSpace(s[..|s| - |r|])
      && (r == "" || !IsSpace(r[0]))
  {
    if s != "" && IsSpace(s[0]) {
      TrimLeftDrops(s[1..]);
      var r := TrimLeft(s);
      assert s[..|s| - |r|] == [s[0]] + s[1..][..|s[1..]| - |r|];
    }
  }

  lemma {:induction false} TrimRightDrops(s: string)
    ensures var r := TrimRight(s);
      && |r| <= |s| && r == s[..|r|] && AllSpace(s[|r|..])
      && (r == "" || !IsSpace(r[|r| - 1]))
  {
    if s != "" && IsSpace(s[|s| - 1]) {
      TrimRightDrops(s[..|s| - 1]);
      var r := TrimRight(s);
      assert s[|r|..] == s[..|s| - 1][|r|..] + [s[|s| - 1]];
    }
  }

  // What is left is trimmed, and a text is left alone exactly when it is trimmed.
  lemma TrimSpaceTrims(s: string)
    ensures Trimmed(TrimSpace(s))
    ensures TrimSpace(s) == s <==> Trimmed(s)
    ensures |TrimSpace(s)| <= |s|
  {
    TrimLeftDrops(s);
    TrimRightDrops(TrimLeft(s));
  }

  // Nothing is left exactly when there was nothing but space.
  lemma TrimSpaceEmpty(s: string)
    ensures TrimSpace(s) == "" <==> AllSpace(s)
  {
    TrimLeftDrops(s);
    var l := TrimLeft(s);
    TrimRightDrops(l);
    if l != "" {
      assert s[|s| - |l|] == l[0];
    } else {
      assert s[..|s|] == s;
    }
  }

  // What is left is a part of the text, and only spaces were before and after it.
  lemma TrimSpaceCutsOut(s: string) returns (i: nat, j: nat)
    ensures i <= j <= |s| && TrimSpace(s) == s[i..j]
    ensures forall k :: 0 <= k < |s| && !(i <= k < j) ==> IsSpace(s[k])
    ensures i < j ==> !IsSpace(s[i]) && !IsSpace(s[j - 1])
  {
    TrimLeftDrops(s);
    var l := TrimLeft(s);
    TrimRightDrops(l);
    i, j := |s| - |l|, |s| - |l| + |TrimSpace(s)|;
    assert l == s[i..];
    forall k | 0 <= k < |s| && !(i <= k < j) ensures IsSpace(s[k]) {
      if k < i {
        assert s[..i][k] == s[k];
      } else {
        assert l[|TrimSpace(s)|..][k - j] == s[k];
      }
    }
  }

  // The positions, in order, of the characters kept, and what they hold.
  ghost predicate AtTheRest(s: string, r: string, at: seq<nat>, keep: char -> bool) {
    && |at| == |r|
    && (forall i :: 0 <= i < |at| ==> at[i] < |s| && r[i] == s[at[i]])
    && (forall i, j :: 0 <= i < j < |at| ==> at[i] < at[j])
    && (forall k :: 0 <= k < |s| ==> (k in at <==> keep(s[k])))
  }

  lemma OneMoreAtTheRest(s: string, c: char, r: string, at: seq<nat>, keep: char -> bool)
    requires AtTheRest(s, r, at, keep)
    ensures !keep(c) ==> AtTheRest(s + [c], r, at, keep)
    ensures keep(c) ==> AtTheRest(s + [c], r + [c], at + [|s|], keep)
  {
    var more := at + [|s|];
    assert |s| !in at;
    forall k | 0 <= k <= |s| ensures k in more <==> k in at || k == |s| {}
  }

  // The other text begins somewhere in this one.
  lemma {:induction false} ContainsFinds(s: string, sub: string)
    ensures Contains(s, sub) <==> exists k :: 0 <= k <= |s| && sub <= s[k..]
  {
    assert s[0..] == s;
    if s != "" {
      ContainsFinds(s[1..], sub);
      forall k | 0 < k <= |s| ensures s[1..][k - 1..] == s[k..] {}
      if Contains(s[1..], sub) {
        var k :| 0 <= k <= |s[1..]| && sub <= s[1..][k..];
        assert s[1..][k + 1 - 1..] == s[k + 1..];
      }
      if k :| 0 <= k <= |s| && sub <= s[k..] {
        assert k > 0 ==> sub <= s[1..][k - 1..];
      }
    }
  }

  // strings.Contains.
  predicate Contains(s: string, sub: string) {
    sub <= s || (s != "" && Contains(s[1..], sub))
  }

  // ---------- decimal integers ----------

  function Digits(n: nat): (s: string)
    ensures s != "" && AllDigits(s) && DigitsValue(s) == n
  {
    if n < 10 then [DigitChar(n)]
    else
      var rest := Digits(n / 10);
      var s := rest + [DigitChar(n % 10)];
      assert s[..|s| - 1] == rest;
      s
  }

  function DigitChar(d: nat): (c: char)
    requires d < 10
    ensures '0' <= c <= '9' && c as int - '0' as int == d
  {
    ('0' as int + d) as char
  }

  predicate AllDigits(s: string) {
    forall i :: 0 <= i < |s| ==> '0' <= s[i] <= '9'
  }

  function DigitsValue(s: string): nat
    requires AllDigits(s)
  {
    if s == "" then 0
    else DigitsValue(s[..|s| - 1]) * 10 + (s[|s| - 1] as int - '0' as int)
  }

  // strconv.FormatInt in base 10.
  function FormatInt(n: int): (s: string)
    ensures s != "" && !IsSpace(s[0])
  {
    if n < 0 then "-" + Digits(-n) else Digits(n)
  }

  // strconv.ParseInt in base 10 with 64 bits: an optional sign, then decimal
  // digits, and nothing outside the int64 range.
  function ParseInt(s: string): (r: Option<int>)
    ensures r.Some? ==> MIN_INT64 <= r.value <= MAX_INT64
  {
    if s == "" then None
    else
      var digits := if s[0] == '+' || s[0] == '-' then s[1..] else s;
      if digits == "" || !AllDigits(digits) then None
      else
        var magnitude: int := DigitsValue(digits);
        var value := if s[0] == '-' then 0 - magnitude else magnitude;
        if MIN_INT64 <= value <= MAX_INT64 then Some(value) else None
  }

  // An identifier is canonical when it is how its own non-negative value is written.
  predicate Canonical(s: string) {
    ParseInt(s).Some? && ParseInt(s).value >= 0 && FormatInt(ParseInt(s).value) == s
  }

  lemma ParseFormat(n: int)
    requires MIN_INT64 <= n <= MAX_INT64
    ensures ParseInt(FormatInt(n)) == Some(n)
    ensures n >= 0 ==> Canonical(FormatInt(n))
  {
    if n < 0 {
      assert FormatInt(n)[1..] == Digits(-n);
    } else {
      assert '0' <= FormatInt(n)[0] <= '9';
    }
  }

  // ASCII tables, for concrete examples.
  const ASCII: Text := Text(LowerAscii, LowerAscii, (s: string) => None)

  function LowerAscii(c: char): char {
    if 'A' <= c <= 'Z' then (c as int + 32) as char else c
  }

  lemma AsciiIsValid()
    ensures ASCII.Valid()
  {}
}
