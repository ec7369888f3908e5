/** The `Point <n>` chat command: `startsWith("Point ")`, `substring(6)`, `trim()`,
    `parseInt` and the `> 0` test, with the decimal rendering of the announcement. */
module Chat {
  import opened Wrappers

  const PointPrefix: string := "Point "

  /** The characters `String.prototype.trim` removes: ECMAScript white space and
      line terminators. */
  predicate IsJsSpace(c: char)
  {
    c == ' ' || c == '\t' || c == '\n' || c == '\r' || c == '\U{000B}' || c == '\U{000C}'
    || c == '\U{00A0}' || c == '\U{1680}' || ('\U{2000}' <= c <= '\U{200A}')
    || c == '\U{2028}' || c == '\U{2029}' || c == '\U{202F}' || c == '\U{205F}'
    || c == '\U{3000}' || c == '\U{FEFF}'
  }

  predicate IsDigit(c: char)
  {
    '0' <= c <= '9'
  }

  predicate AllDigits(s: string)
  {
    forall i :: 0 <= i < |s| ==> IsDigit(s[i])
  }

  function DigitValue(c: char): (d: nat)
    requires IsDigit(c)
    ensures d < 10
  {
    c as int - '0' as int
  }

  function DigitChar(d: nat): (c: char)
    requires d < 10
    ensures IsDigit(c) && DigitValue(c) == d
  {
    ('0' as int + d) as char
  }

  // ---------------------------------------------------------------- trim

  ghost predicate AllSpace(s: string)
  {
    forall i :: 0 <= i < |s| ==> IsJsSpace(s[i])
  }

  /** Drops leading white space: what remains is a suffix that starts with a
      non-space, and everything dropped was space. */
  function TrimStart(s: string): (r: string)
    ensures |r| <= |s| && r == s[|s| - |r|..]
    ensures r == [] || !IsJsSpace(r[0])
    ensures AllSpace(s[..|s| - |r|])
  {
    if s != [] && IsJsSpace(s[0]) then TrimStart(s[1..]) else s
  }

  /** Drops trailing white space: what remains is a prefix that ends with a
      non-space, and everything dropped was space. */
  function TrimEnd(s: string): (r: string)
    ensures |r| <= |s| && r == s[..|r|]
    ensures r == [] || !IsJsSpace(r[|r| - 1])
    ensures AllSpace(s[|r|..])
  {
    if s != [] && IsJsSpace(s[|s| - 1]) then TrimEnd(s[..|s| - 1]) else s
  }

  /** `TrimStart` splits `s` into the dropped white space and the result. Stated on its
      own so that the sequence reasoning runs without the rest of the trim proof. */
  lemma TrimStartSplit(s: string)
    ensures var t := TrimStart(s); s == s[..|s| - |t|] + t
  {
    var t := TrimStart(s);
    assert t == s[|s| - |t|..];
  }

  /** `TrimEnd` splits `t` into the result and the dropped white space. */
  lemma TrimEndSplit(t: string)
    ensures var r := TrimEnd(t); t == r + t[|r|..]
  {
    var r := TrimEnd(t);
    assert r == t[..|r|];
  }

  /** White space, then `t`; and `t` is `r` followed by white space: so `r` sits between
      white space in `s`, and is empty when all of `s` is white space. */
  lemma Sandwich(s: string, t: string, r: string)
    requires |t| <= |s| && s == s[..|s| - |t|] + t && AllSpace(s[..|s| - |t|])
    requires |r| <= |t| && t == r + t[|r|..] && AllSpace(t[|r|..])
    requires t == [] || !IsJsSpace(t[0])
    ensures exists pre, post :: s == pre + r + post && AllSpace(pre) && AllSpace(post)
    ensures AllSpace(s) ==> r == []
  {
    var pre, post := s[..|s| - |t|], t[|r|..];
    assert s == pre + r + post by {
      assert pre + t == pre + (r + post) == pre + r + post;
    }
    assert t != [] ==> s[|pre|] == t[0];
  }

  /** `TrimEnd` after `TrimStart` drops only white space, on either side, and keeps
      nothing of an all-white-space `s`. */
  lemma TrimSlice(s: string)
    ensures var r := TrimEnd(TrimStart(s));
      (exists pre, post :: s == pre + r + post && AllSpace(pre) && AllSpace(post))
      && (AllSpace(s) ==> r == [])
  {
    var t := TrimStart(s);
    TrimStartSplit(s);
    TrimEndSplit(t);
    Sandwich(s, t, TrimEnd(t));
  }

  /** `String.prototype.trim`: the input is the result with white space only before and
      after it, and neither end of the result is white space. */
  function Trim(s: string): (r: string)
    ensures |r| <= |s|
    ensures r == [] || (!IsJsSpace(r[0]) && !IsJsSpace(r[|r| - 1]))
    ensures exists pre, post :: s == pre + r + post && AllSpace(pre) && AllSpace(post)
    ensures AllSpace(s) ==> r == []
  {
    TrimSlice(s);
    TrimEnd(TrimStart(s))
  }

  lemma {:induction false} TrimStartPadded(pre: string, rest: string)
    requires AllSpace(pre)
    requires rest == [] || !IsJsSpace(rest[0])
    ensures TrimStart(pre + rest) == rest
  {
    if pre == [] {
      assert pre + rest == rest;
    } else {
      assert (pre + rest)[0] == pre[0] && (pre + rest)[1..] == pre[1..] + rest;
      TrimStartPadded(pre[1..], rest);
    }
  }

  lemma {:induction false} TrimEndPadded(rest: string, post: string)
    requires AllSpace(post)
    requires rest == [] || !IsJsSpace(rest[|rest| - 1])
    ensures TrimEnd(rest + post) == rest
  {
    if post == [] {
      assert rest + post == rest;
    } else {
      var n := |post| - 1;
      assert (rest + post)[|rest + post| - 1] == post[n];
      assert (rest + post)[..|rest + post| - 1] == rest + post[..n];
      TrimEndPadded(rest, post[..n]);
    }
  }

  /** Trimming a word padded with white space on both sides gives back the word. */
  lemma TrimPadded(pre: string, word: string, post: string)
    requires AllSpace(pre) && AllSpace(post)
    requires word != [] && !IsJsSpace(word[0]) && !IsJsSpace(word[|word| - 1])
    ensures Trim(pre + word + post) == word
  {
    assert pre + word + post == pre + (word + post);
    assert (word + post)[0] == word[0];
    TrimStartPadded(pre, word + post);
    TrimEndPadded(word, post);
  }

  /** A word with no white space at either end trims to itself. */
  lemma TrimWord(word: string)
    requires word != [] && !IsJsSpace(word[0]) && !IsJsSpace(word[|word| - 1])
    ensures Trim(word) == word
  {
    TrimPadded([], word, []);
    assert [] + word + [] == word;
  }

  // ---------------------------------------------------------------- parseInt

  /** The longest prefix of decimal digits. */
  function DigitPrefix(s: string): (r: string)
    ensures |r| <= |s| && r == s[..|r|]
    ensures AllDigits(r)
    ensures |r| == |s| || !IsDigit(s[|r|])
  {
    if s != [] && IsDigit(s[0]) then [s[0]] + DigitPrefix(s[1..]) else []
  }

  /** The value of a string of decimal digits, most significant first. */
  function DigitsValue(ds: string): nat
    requires AllDigits(ds)
  {
    if ds == [] then 0 else DigitsValue(ds[..|ds| - 1]) * 10 + DigitValue(ds[|ds| - 1])
  }

  /** `parseInt(s, 10)` on a string with no leading white space: an optional sign and
      the decimal digits that follow it; characters after the digits are ignored, and
      no digits at all is `NaN` (None). */
  function ParseInt(s: string): (r: Option<int>)
    ensures r.None? <==> (if s != [] && (s[0] == '+' || s[0] == '-')
                          then DigitPrefix(s[1..]) == [] else DigitPrefix(s) == [])
  {
    var signed := s != [] && (s[0] == '+' || s[0] == '-');
    var digits := DigitPrefix(if signed then s[1..] else s);
    if digits == [] then None
    else
      var v: int := DigitsValue(digits);
      if signed && s[0] == '-' then Some(-v) else Some(v)
  }

  // ---------------------------------------------------------------- decimal rendering

  /** The decimal digits of `n`, as a template literal `${n}` renders an integer. */
  function DecimalString(n: nat): (r: string)
    ensures r != []
    ensures AllDigits(r)
    ensures r[0] == '0' ==> n == 0
  {
    if n < 10 then [DigitChar(n)] else DecimalString(n / 10) + [DigitChar(n % 10)]
  }

  /** Reading the rendered digits back gives the number. */
  lemma {:induction false} DecimalRoundTrip(n: nat)
    ensures DigitsValue(DecimalString(n)) == n
  {
    if n >= 10 {
      var front := DecimalString(n / 10);
      var ds := front + [DigitChar(n % 10)];
      assert ds[..|ds| - 1] == front;
      DecimalRoundTrip(n / 10);
    }
  }

  lemma {:induction false} DigitPrefixOfDigits(ds: string, rest: string)
    requires AllDigits(ds)
    requires rest == [] || !IsDigit(rest[0])
    ensures DigitPrefix(ds + rest) == ds
  {
    if ds == [] {
      assert ds + rest == rest;
    } else {
      assert (ds + rest)[0] == ds[0] && (ds + rest)[1..] == ds[1..] + rest;
      DigitPrefixOfDigits(ds[1..], rest);
    }
  }

  /** A '+' before a digit: `parseInt` reads the digits after it. */
  lemma ParsePlusWord(w: string)
    requires |w| >= 2 && w[0] == '+' && IsDigit(w[1])
    ensures ParseInt(w) == Some(DigitsValue(DigitPrefix(w[1..])))
  {
    assert w[1..][0] == w[1];
  }

  /** A '-' before a digit: `parseInt` reads the digits after it and negates them. */
  lemma ParseMinusWord(w: string)
    requires |w| >= 2 && w[0] == '-' && IsDigit(w[1])
    ensures ParseInt(w) == Some(-(DigitsValue(DigitPrefix(w[1..])) as int))
  {
    assert w[1..][0] == w[1];
  }

  /** The word `[sign] + ds + rest`, seen from its second character on. */
  lemma SignedWord(sign: string, ds: string, rest: string)
    requires |sign| == 1 && ds != [] && AllDigits(ds)
    requires rest == [] || !IsDigit(rest[0])
    ensures var w := sign + ds + rest;
      |w| >= 2 && w[0] == sign[0] && IsDigit(w[1]) && DigitPrefix(w[1..]) == ds
  {
    var w := sign + ds + rest;
    assert w[1..] == ds + rest && w[1] == ds[0];
    DigitPrefixOfDigits(ds, rest);
  }

  /** `parseInt` reads a run of digits, leading zeros included, and ignores whatever
      non-digit text follows it. */
  lemma ParseDigits(ds: string, rest: string)
    requires ds != [] && AllDigits(ds)
    requires rest == [] || !IsDigit(rest[0])
    ensures ParseInt(ds + rest) == Some(DigitsValue(ds))
  {
    DigitPrefixOfDigits(ds, rest);
    assert (ds + rest)[0] == ds[0];
  }

  /** The same after a '+' sign. */
  lemma ParsePlusDigits(ds: string, rest: string)
    requires ds != [] && AllDigits(ds)
    requires rest == [] || !IsDigit(rest[0])
    ensures ParseInt("+" + ds + rest) == Some(DigitsValue(ds))
  {
    SignedWord("+", ds, rest);
    ParsePlusWord("+" + ds + rest);
  }

  /** After a '-' sign the value is negated. */
  lemma ParseMinusDigits(ds: string, rest: string)
    requires ds != [] && AllDigits(ds)
    requires rest == [] || !IsDigit(rest[0])
    ensures ParseInt("-" + ds + rest) == Some(-(DigitsValue(ds) as int))
  {
    SignedWord("-", ds, rest);
    ParseMinusWord("-" + ds + rest);
  }

  /** `parseInt` reads a rendered number back, whatever non-digit text follows it. */
  lemma ParseDecimal(n: nat, rest: string)
    requires rest == [] || !IsDigit(rest[0])
    ensures ParseInt(DecimalString(n) + rest) == Some(n)
  {
    var ds := DecimalString(n);
    assert (ds + rest)[0] == ds[0];
    DigitPrefixOfDigits(ds, rest);
    DecimalRoundTrip(n);
  }

  // ---------------------------------------------------------------- the command

  predicate StartsWithPointPrefix(msg: string)
  {
    |msg| >= |PointPrefix| && msg[..|PointPrefix|] == PointPrefix
  }

  /** The new starting points a chat line sets, if it is an accepted `Point` command:
      it must start with "Point " and its trimmed remainder must parse to a positive
      integer. */
  function PointSetting(msg: string): (r: Option<int>)
    ensures r.Some? ==> r.value > 0 && StartsWithPointPrefix(msg)
  {
    if StartsWithPointPrefix(msg) then
      match ParseInt(Trim(msg[|PointPrefix|..]))
      case Some(v) => if v > 0 then Some(v) else None
      case None => None
    else None
  }

  /** The announcement broadcast by "Server" after an accepted command. */
  function StartingPointsNotice(n: nat): string
  {
    "Starting points set to " + DecimalString(n)
  }

  /** "Point " followed by a positive number, padded with white space, is accepted with
      that number; the announcement carries the same digits. */
  lemma PointCommandAccepted(n: nat, pre: string, post: string)
    requires n > 0 && AllSpace(pre) && AllSpace(post)
    ensures PointSetting(PointPrefix + pre + DecimalString(n) + post) == Some(n)
  {
    var ds := DecimalString(n);
    var msg := PointPrefix + pre + ds + post;
    assert msg[..|PointPrefix|] == PointPrefix;
    assert msg[|PointPrefix|..] == pre + ds + post;
    TrimPadded(pre, ds, post);
    ParseDecimal(n, []);
    assert ds + [] == ds;
  }

  /** A line that does not start with "Point " is never a command. */
  lemma NotACommand(msg: string)
    requires !StartsWithPointPrefix(msg)
    ensures PointSetting(msg) == None
  {
  }

  /** "Point " followed by text with no digit after the optional sign is plain chat. */
  lemma NoDigitsIsChat(rest: string)
    requires var t := Trim(rest);
      var u := if t != [] && (t[0] == '+' || t[0] == '-') then t[1..] else t;
      u == [] || !IsDigit(u[0])
    ensures PointSetting(PointPrefix + rest) == None
  {
    var msg := PointPrefix + rest;
    assert msg[..|PointPrefix|] == PointPrefix;
    assert msg[|PointPrefix|..] == rest;
  }

  lemma ParseNegative(n: nat)
    ensures ParseInt("-" + DecimalString(n)) == Some(-(n as int))
  {
    var ds := DecimalString(n);
    var word := "-" + ds;
    assert word[0] == '-';
    assert word[1..] == ds + [];
    ParseDecimal(n, []);
  }

  /** A negative number, padded with white space, is plain chat. */
  lemma NegativeIsChat(n: nat, pre: string, post: string)
    requires AllSpace(pre) && AllSpace(post)
    ensures PointSetting(PointPrefix + pre + ("-" + DecimalString(n)) + post) == None
  {
    var ds := DecimalString(n);
    var word := "-" + ds;
    var msg := PointPrefix + pre + word + post;
    assert msg[..|PointPrefix|] == PointPrefix;
    assert msg[|PointPrefix|..] == pre + word + post;
    assert word[|word| - 1] == ds[|ds| - 1];
    TrimPadded(pre, word, post);
    ParseNegative(n);
  }

  /** Zero, padded with white space, is plain chat. */
  lemma ZeroIsChat(pre: string, post: string)
    requires AllSpace(pre) && AllSpace(post)
    ensures PointSetting(PointPrefix + pre + "0" + post) == None
  {
    var msg := PointPrefix + pre + "0" + post;
    assert msg[..|PointPrefix|] == PointPrefix;
    assert msg[|PointPrefix|..] == pre + "0" + post;
    TrimPadded(pre, "0", post);
    assert DigitPrefix("0") == "0" by { assert "0"[1..] == []; }
    assert DigitsValue("0") == 0 by { assert "0"[..0] == []; }
  }
}
