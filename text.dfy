/** The handful of Python string operations the corpus parser relies on:
    str.strip, str.lower().startswith, str.split(':', 1), str.split(),
    str.isdigit, int() and the ordering of str values. */
module Text {

  datatype Option<+T> = None | Some(value: T)

  /** Python's str.isspace(), by code point. */
  predicate IsSpace(c: char) {
    var n := c as int;
    n == 32 || 9 <= n <= 13 || 28 <= n <= 31 || n == 0x85 || n == 0xA0 || n == 0x1680
    || 0x2000 <= n <= 0x200A || n == 0x2028 || n == 0x2029 || n == 0x202F || n == 0x205F
    || n == 0x3000
  }

  predicate IsDigit(c: char) {
    '0' <= c <= '9'
  }

  /** str.isdigit(): non-empty and every character a digit. */
  predicate IsDigits(s: string) {
    |s| > 0 && forall i :: 0 <= i < |s| ==> IsDigit(s[i])
  }

  /** The value of one decimal digit. */
  function DigitValue(c: char): (r: nat)
    ensures r < 10
  {
    if IsDigit(c) then c as int - '0' as int else 0
  }

  /** The decimal value of a digit string, as int(s) computes it (only ever
      applied to strings of digits). */
  function DigitsValue(s: string): nat {
    if |s| == 0 then 0 else DigitsValue(s[..|s| - 1]) * 10 + DigitValue(s[|s| - 1])
  }

  function Pow10(n: nat): nat {
    if n == 0 then 1 else 10 * Pow10(n - 1)
  }

  /** Positional value: the digits of a + b are worth those of a shifted
      left by |b| places, plus those of b. */
  lemma {:induction false} DigitsValueAppend(a: string, b: string)
    ensures DigitsValue(a + b) == DigitsValue(a) * Pow10(|b|) + DigitsValue(b)
    decreases |b|
  {
    if b == [] {
      assert a + b == a;
    } else {
      var b' := b[..|b| - 1];
      assert (a + b)[..|a + b| - 1] == a + b';
      DigitsValueAppend(a, b');
      ShiftDigit(DigitsValue(a), Pow10(|b'|), DigitsValue(b'), DigitValue(b[|b| - 1]));
    }
  }

  lemma ShiftDigit(x: int, p: int, y: int, d: int)
    ensures (x * p + y) * 10 + d == x * (10 * p) + (y * 10 + d)
  {
  }

  /** int(s) on an already stripped string: an optional sign followed by digits. */
  function ParseInt(s: string): (r: Option<int>)
    ensures IsDigits(s) ==> r == Some(DigitsValue(s))
    ensures |s| > 1 && (s[0] == '+' || s[0] == '-') && IsDigits(s[1..]) ==>
      r == Some(if s[0] == '-' then -(DigitsValue(s[1..]) as int) else DigitsValue(s[1..]) as int)
    ensures r.Some? ==> IsDigits(s) || (|s| > 1 && (s[0] == '+' || s[0] == '-') && IsDigits(s[1..]))
  {
    if IsDigits(s) then Some(DigitsValue(s))
    else if |s| > 1 && s[0] == '+' && IsDigits(s[1..]) then Some(DigitsValue(s[1..]))
    else if |s| > 1 && s[0] == '-' && IsDigits(s[1..]) then
      var v: int := DigitsValue(s[1..]); Some(-v)
    else None
  }

  /** str.lstrip(): s without its leading whitespace. */
  function TrimStart(s: string): string {
    if |s| > 0 && IsSpace(s[0]) then TrimStart(s[1..]) else s
  }

  /** lstrip removes only whitespace, and all of it. */
  lemma {:induction false} TrimStartSpec(s: string)
    ensures |TrimStart(s)| <= |s| && TrimStart(s) == s[|s| - |TrimStart(s)|..]
    ensures TrimStart(s) == [] || !IsSpace(TrimStart(s)[0])
    ensures forall i :: 0 <= i < |s| - |TrimStart(s)| ==> IsSpace(s[i])
    decreases |s|
  {
    if |s| > 0 && IsSpace(s[0]) {
      TrimStartSpec(s[1..]);
      forall i | 1 <= i < |s| - |TrimStart(s)| ensures IsSpace(s[i]) {
        assert s[1..][i - 1] == s[i];
      }
    }
  }

  /** str.rstrip(): s without its trailing whitespace. */
  function TrimEnd(s: string): string {
    if |s| > 0 && IsSpace(s[|s| - 1]) then TrimEnd(s[..|s| - 1]) else s
  }

  /** rstrip removes only whitespace, and all of it. */
  lemma {:induction false} TrimEndSpec(s: string)
    ensures |TrimEnd(s)| <= |s| && TrimEnd(s) == s[..|TrimEnd(s)|]
    ensures TrimEnd(s) == [] || !IsSpace(TrimEnd(s)[|TrimEnd(s)| - 1])
    ensures forall i :: |TrimEnd(s)| <= i < |s| ==> IsSpace(s[i])
    decreases |s|
  {
    if |s| > 0 && IsSpace(s[|s| - 1]) {
      TrimEndSpec(s[..|s| - 1]);
      assert s[..|s| - 1][..|TrimEnd(s)|] == s[..|TrimEnd(s)|];
    }
  }

  /** str.strip(). */
  function Strip(s: string): string {
    TrimEnd(TrimStart(s))
  }

  /** The result of strip neither starts nor ends with whitespace. */
  lemma StripSpec(s: string)
    ensures Strip(s) == [] || (!IsSpace(Strip(s)[0]) && !IsSpace(Strip(s)[|Strip(s)| - 1]))
  {
    var t := TrimStart(s);
    TrimStartSpec(s);
    TrimEndSpec(t);
    if Strip(s) != [] {
      assert Strip(s)[0] == t[0];
    }
  }

  /** Stripping a string that neither starts nor ends with whitespace changes nothing. */
  lemma StripUntrimmed(s: string)
    requires s == [] || (!IsSpace(s[0]) && !IsSpace(s[|s| - 1]))
    ensures Strip(s) == s
  {
  }

  /** strip is idempotent. */
  lemma StripIdempotent(s: string)
    ensures Strip(Strip(s)) == Strip(s)
  {
    StripSpec(s);
    StripUntrimmed(Strip(s));
  }

  /** ASCII lower-casing of one character. */
  function LowerChar(c: char): (r: char)
    ensures r == ':' <==> c == ':'
    ensures 'a' <= r <= 'z' ==> 'a' <= c <= 'z' || 'A' <= c <= 'Z'
  {
    if 'A' <= c <= 'Z' then (c as int + 32) as char else c
  }

  /** line.lower().startswith(tag), for a lower-case tag. */
  predicate HasTag(line: string, tag: string) {
    |tag| <= |line| && forall i :: 0 <= i < |tag| ==> LowerChar(line[i]) == tag[i]
  }

  /** Field tags match in any case: a line carries a lower-case tag exactly
      when each of its first characters is the tag's character or, for a
      letter, its upper-case form. */
  lemma HasTagIgnoresCase(line: string, tag: string)
    requires forall i :: 0 <= i < |tag| ==> !('A' <= tag[i] <= 'Z')
    ensures HasTag(line, tag) <==> |tag| <= |line| && forall i :: 0 <= i < |tag| ==>
      line[i] == tag[i] || ('a' <= tag[i] <= 'z' && line[i] as int == tag[i] as int - 32)
  {
    if |tag| <= |line| {
      forall i | 0 <= i < |tag|
        ensures LowerChar(line[i]) == tag[i] <==>
          line[i] == tag[i] || ('a' <= tag[i] <= 'z' && line[i] as int == tag[i] as int - 32)
      {
      }
    }
  }

  /** A field tag such as "title:": lower-case letters (or spaces) ending in its only colon. */
  predicate IsFieldTag(tag: string) {
    |tag| > 0 && tag[|tag| - 1] == ':' && forall i :: 0 <= i < |tag| - 1 ==> tag[i] != ':'
  }

  /** line.split(':', 1)[1]: the text after the first colon. Without a colon
      Python raises IndexError; every caller passes a line that starts with a
      tag ending in ':', and the function returns [] there. */
  function AfterFirstColon(s: string): (r: string)
    ensures |r| <= |s|
  {
    if s == [] then []
    else if s[0] == ':' then s[1..]
    else AfterFirstColon(s[1..])
  }

  /** The split is exact: with a colon in s, r is everything after the first
      one; without a colon, r is the [] that stands in for the IndexError. */
  lemma {:induction false} AfterFirstColonSpec(s: string)
    ensures ':' !in s ==> AfterFirstColon(s) == []
    ensures ':' in s ==>
      var p := |s| - |AfterFirstColon(s)| - 1;
      && 0 <= p && s[p] == ':' && ':' !in s[..p] && s[p + 1..] == AfterFirstColon(s)
  {
    if s != [] && s[0] != ':' {
      AfterFirstColonSpec(s[1..]);
      assert ':' in s <==> ':' in s[1..] by {
        assert s == [s[0]] + s[1..];
      }
      if ':' in s {
        var p := |s| - |AfterFirstColon(s)| - 1;
        assert s[1..][..p - 1] == s[1..p];
        assert s[..p] == [s[0]] + s[1..p];
      }
    }
  }

  /** The text after the first colon of a tagged line is the text after its tag:
      splitting on the first colon never cuts inside the value. */
  lemma {:induction false} TaggedValue(line: string, tag: string)
    requires IsFieldTag(tag) && HasTag(line, tag)
    ensures AfterFirstColon(line) == line[|tag|..]
  {
    if |tag| == 1 {
      assert LowerChar(line[0]) == ':';
    } else {
      assert LowerChar(line[0]) == tag[0];
      assert line[0] != ':';
      var tag' := tag[1..];
      assert HasTag(line[1..], tag') by {
        forall i | 0 <= i < |tag'| ensures LowerChar(line[1..][i]) == tag'[i] {
          assert LowerChar(line[i + 1]) == tag[i + 1];
        }
      }
      TaggedValue(line[1..], tag');
      assert line[1..][|tag'|..] == line[|tag|..];
    }
  }

  /** Position of the end of the run of non-whitespace characters starting at i. */
  function WordEnd(s: string, i: nat): (r: nat)
    requires i <= |s|
    ensures i <= r <= |s|
    decreases |s| - i
  {
    if i == |s| || IsSpace(s[i]) then i else WordEnd(s, i + 1)
  }

  /** The run ends at whitespace or at the end of s, and holds no whitespace. */
  lemma {:induction false} WordEndSpec(s: string, i: nat)
    requires i <= |s|
    ensures WordEnd(s, i) < |s| ==> IsSpace(s[WordEnd(s, i)])
    ensures forall j :: i <= j < WordEnd(s, i) ==> !IsSpace(s[j])
    decreases |s| - i
  {
    if i < |s| && !IsSpace(s[i]) {
      WordEndSpec(s, i + 1);
    }
  }

  /** A non-empty run of non-whitespace characters. */
  predicate IsWord(w: string) {
    |w| > 0 && forall j :: 0 <= j < |w| ==> !IsSpace(w[j])
  }

  /** str.split() with no argument: the maximal runs of non-whitespace, in order. */
  function Tokens(s: string): seq<string>
    decreases |s|
  {
    var t := TrimStart(s);
    if t == [] then []
    else
      TrimStartSpec(s);
      var k := WordEnd(t, 0);
      assert k > 0 && |t[k..]| < |s|;
      [t[..k]] + Tokens(t[k..])
  }

  /** Every token is a word. */
  lemma {:induction false} TokensAreWords(s: string)
    ensures forall k :: 0 <= k < |Tokens(s)| ==> IsWord(Tokens(s)[k])
    decreases |s|
  {
    var t := TrimStart(s);
    if t != [] {
      TrimStartSpec(s);
      var k := WordEnd(t, 0);
      WordEndSpec(t, 0);
      assert IsWord(t[..k]);
      TokensAreWords(t[k..]);
      var r := Tokens(s);
      var rest := Tokens(t[k..]);
      assert r == [t[..k]] + rest;
      forall j | 0 <= j < |r| ensures IsWord(r[j]) {
        if j > 0 {
          assert r[j] == rest[j - 1];
        }
      }
    }
  }

  /** The non-whitespace characters of s, in order. */
  function NonSpace(s: string): string {
    if s == [] then [] else (if IsSpace(s[0]) then [] else [s[0]]) + NonSpace(s[1..])
  }

  /** The words of a list written back to back. */
  function Concat(ws: seq<string>): string {
    if ws == [] then [] else ws[0] + Concat(ws[1..])
  }

  lemma {:induction false} NonSpaceAppend(a: string, b: string)
    ensures NonSpace(a + b) == NonSpace(a) + NonSpace(b)
    decreases |a|
  {
    if a != [] {
      assert (a + b)[1..] == a[1..] + b;
      NonSpaceAppend(a[1..], b);
    } else {
      assert a + b == b;
    }
  }

  lemma {:induction false} NonSpaceTrimStart(s: string)
    ensures NonSpace(TrimStart(s)) == NonSpace(s)
    decreases |s|
  {
    if |s| > 0 && IsSpace(s[0]) {
      NonSpaceTrimStart(s[1..]);
    }
  }

  lemma {:induction false} NonSpaceOfWord(a: string)
    requires forall i :: 0 <= i < |a| ==> !IsSpace(a[i])
    ensures NonSpace(a) == a
    decreases |a|
  {
    if a != [] {
      NonSpaceOfWord(a[1..]);
      assert a == [a[0]] + a[1..];
    }
  }

  /** split() loses nothing but whitespace: its tokens, written back to back,
      are exactly the non-whitespace characters of the line, in order. */
  lemma {:induction false} TokensJoin(s: string)
    ensures Concat(Tokens(s)) == NonSpace(s)
    decreases |s|
  {
    var t := TrimStart(s);
    TrimStartSpec(s);
    NonSpaceTrimStart(s);
    if t != [] {
      var k := WordEnd(t, 0);
      WordEndSpec(t, 0);
      assert k > 0;
      assert t == t[..k] + t[k..];
      NonSpaceAppend(t[..k], t[k..]);
      NonSpaceOfWord(t[..k]);
      TokensJoin(t[k..]);
      assert Tokens(s) == [t[..k]] + Tokens(t[k..]);
      assert Concat(Tokens(s)) == t[..k] + Concat(Tokens(t[k..]));
    } else {
      assert Tokens(s) == [];
    }
  }

  /** A leading whitespace character does not change the tokens. */
  lemma TokensSpaceCons(c: char, s: string)
    requires IsSpace(c)
    ensures Tokens([c] + s) == Tokens(s)
  {
    assert ([c] + s)[1..] == s;
    assert TrimStart([c] + s) == TrimStart(s);
  }

  /** A word run inside a that reaches the end of a stops there when a
      whitespace character follows a. */
  lemma {:induction false} WordEndBeforeSpace(a: string, c: char, b: string, i: nat)
    requires IsSpace(c) && i <= |a|
    ensures WordEnd(a + [c] + b, i) == WordEnd(a, i)
    decreases |a| - i
  {
    var s := a + [c] + b;
    if i < |a| {
      assert s[i] == a[i];
      if !IsSpace(a[i]) {
        WordEndBeforeSpace(a, c, b, i + 1);
      }
    } else {
      assert s[i] == c;
    }
  }

  /** split() cuts at every whitespace character: the tokens of a line split
      at a whitespace character are the tokens of its two sides. */
  lemma {:induction false} TokensSplit(a: string, b: string, c: char)
    requires IsSpace(c)
    ensures Tokens(a + [c] + b) == Tokens(a) + Tokens(b)
    decreases |a|
  {
    var s := a + [c] + b;
    if a == [] {
      assert s == [c] + b;
      TokensSpaceCons(c, b);
    } else if IsSpace(a[0]) {
      assert s == [a[0]] + (a[1..] + [c] + b);
      assert a == [a[0]] + a[1..];
      TokensSpaceCons(a[0], a[1..] + [c] + b);
      TokensSpaceCons(a[0], a[1..]);
      TokensSplit(a[1..], b, c);
    } else {
      assert s[0] == a[0];
      assert TrimStart(s) == s && TrimStart(a) == a;
      var k := WordEnd(a, 0);
      WordEndBeforeSpace(a, c, b, 0);
      assert k > 0;
      assert Tokens(s) == [s[..k]] + Tokens(s[k..]);
      assert Tokens(a) == [a[..k]] + Tokens(a[k..]);
      assert s[..k] == a[..k];
      assert s[k..] == a[k..] + [c] + b;
      TokensSplit(a[k..], b, c);
    }
  }

  /** A word on its own is a single token. */
  lemma TokensWord(w: string)
    requires IsWord(w)
    ensures Tokens(w) == [w]
  {
    assert TrimStart(w) == w;
    WordEndSpec(w, 0);
    assert WordEnd(w, 0) == |w|;
    assert w[..|w|] == w && w[|w|..] == [];
    assert TrimStart(w[|w|..]) == [];
    assert Tokens(w) == [w[..|w|]] + Tokens(w[|w|..]);
  }

  lemma ConcatAssoc<T>(a: seq<T>, b: seq<T>, c: seq<T>)
    ensures (a + b) + c == a + (b + c)
  {
  }

  lemma ConcatEmpty<T>(a: seq<T>)
    ensures [] + a == a && a + [] == a
  {
  }

  /** Python's str comparison a < b: lexicographic by code point. */
  predicate LexLess(a: string, b: string) {
    if a == [] then b != []
    else if b == [] then false
    else if a[0] != b[0] then a[0] < b[0]
    else LexLess(a[1..], b[1..])
  }

  lemma {:induction false} LexLessIrreflexive(a: string)
    ensures !LexLess(a, a)
  {
    if a != [] {
      LexLessIrreflexive(a[1..]);
    }
  }

  lemma {:induction false} LexLessAsymmetric(a: string, b: string)
    requires LexLess(a, b)
    ensures !LexLess(b, a)
  {
    if a != [] && b != [] && a[0] == b[0] {
      LexLessAsymmetric(a[1..], b[1..]);
    }
  }

  /** Two distinct strings are always ordered one way or the other. */
  lemma {:induction false} LexLessTotal(a: string, b: string)
    requires a != b
    ensures LexLess(a, b) || LexLess(b, a)
  {
    if a != [] && b != [] && a[0] == b[0] {
      assert a == [a[0]] + a[1..] && b == [b[0]] + b[1..];
      LexLessTotal(a[1..], b[1..]);
    }
  }
}
