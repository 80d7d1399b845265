// Validation of the process count typed by the user. Every simulation starts
// with `!int.TryParse(userInput.Trim(), out int n) || n <= 0` and gives up before
// any array is built when the count is not a positive 32-bit integer.
module ProcessCount {

  datatype Option<T> = None | Some(value: T)

  const Int32Min: int := -0x8000_0000
  const Int32Max: int := 0x7FFF_FFFF

  /** The white-space characters both Trim and int.TryParse skip: U+0009..U+000D and U+0020. */
  predicate IsWhiteSpace(c: char)
  {
    c == ' ' || '\t' <= c <= '\r'
  }

  predicate IsDigit(c: char)
  {
    '0' <= c <= '9'
  }

  predicate AllDigits(s: string)
  {
    forall i :: 0 <= i < |s| ==> IsDigit(s[i])
  }

  predicate AllWhiteSpace(s: string)
  {
    forall i :: 0 <= i < |s| ==> IsWhiteSpace(s[i])
  }

  /** String.TrimStart: drops the leading white space and nothing else. */
  function TrimStart(s: string): (r: string)
    ensures |r| <= |s| && r == s[|s| - |r|..]
    ensures AllWhiteSpace(s[..|s| - |r|])
    ensures r == [] || !IsWhiteSpace(r[0])
  {
    if |s| > 0 && IsWhiteSpace(s[0]) then
      var r := TrimStart(s[1..]);
      assert s[..|s| - |r|] == [s[0]] + s[1..][..|s| - 1 - |r|];
      r
    else s
  }

  /** String.TrimEnd: drops the trailing white space and nothing else. */
  function TrimEnd(s: string): (r: string)
    ensures |r| <= |s| && r == s[..|r|]
    ensures AllWhiteSpace(s[|r|..])
    ensures r == [] || !IsWhiteSpace(r[|r| - 1])
  {
    if |s| > 0 && IsWhiteSpace(s[|s| - 1]) then
      var r := TrimEnd(s[..|s| - 1]);
      assert s[|r|..] == s[..|s| - 1][|r|..] + [s[|s| - 1]];
      r
    else s
  }

  /** String.Trim: neither end of the result is white space. */
  function Trim(s: string): (r: string)
    ensures |r| <= |s|
    ensures r == [] || (!IsWhiteSpace(r[0]) && !IsWhiteSpace(r[|r| - 1]))
  {
    TrimEnd(TrimStart(s))
  }

  function DigitValue(c: char): nat
    requires IsDigit(c)
  {
    c as int - '0' as int
  }

  /** Value of a string of decimal digits, most significant first. */
  function DigitsValue(ds: string): nat
    requires AllDigits(ds)
  {
    if |ds| == 0 then 0 else DigitsValue(ds[..|ds| - 1]) * 10 + DigitValue(ds[|ds| - 1])
  }

  /** Drops the trailing U+0000 characters and nothing else. */
  function DropTrailingNuls(s: string): (r: string)
    ensures |r| <= |s| && r == s[..|r|]
    ensures forall i :: |r| <= i < |s| ==> s[i] == '\0'
    ensures r == [] || r[|r| - 1] != '\0'
  {
    if |s| > 0 && s[|s| - 1] == '\0' then DropTrailingNuls(s[..|s| - 1]) else s
  }

  /**
   * int.TryParse with the default integer style on an already trimmed string.
   * After the number it skips trailing white space and then accepts any run
   * of U+0000 characters, which String.Trim leaves in place; what remains
   * must be a ParseInteger.
   */
  function TryParseInt32(s: string): (r: Option<int>)
    ensures r.Some? ==> Int32Min <= r.value <= Int32Max
  {
    ParseInteger(TrimEnd(DropTrailingNuls(s)))
  }

  /**
   * The number itself: an optional '+' or '-', then one or more ASCII
   * digits, and a value that fits in 32 bits.
   */
  function ParseInteger(s: string): (r: Option<int>)
    ensures r.Some? ==> Int32Min <= r.value <= Int32Max
  {
    var negative := |s| > 0 && s[0] == '-';
    var digits := if |s| > 0 && (s[0] == '-' || s[0] == '+') then s[1..] else s;
    if |digits| == 0 || !AllDigits(digits) then None
    else
      var v: int := if negative then -(DigitsValue(digits) as int) else DigitsValue(digits);
      if Int32Min <= v <= Int32Max then Some(v) else None
  }

  /** The guard that opens every simulation: None means "Invalid number of processes." */
  function ValidateProcessCount(userInput: string): (r: Option<nat>)
    ensures r.Some? ==> 0 < r.value <= Int32Max
    ensures r.None? <==> (TryParseInt32(Trim(userInput)).None? || TryParseInt32(Trim(userInput)).value <= 0)
  {
    match TryParseInt32(Trim(userInput))
    case Some(n) => if n <= 0 then None else Some(n)
    case None => None
  }

  // ---------------------------------------------------------------------
  // What the guard accepts and rejects
  // ---------------------------------------------------------------------

  /** The usual decimal spelling of n, without sign or leading zeros. */
  function Decimal(n: nat): (r: string)
    ensures |r| > 0 && AllDigits(r)
  {
    var d := ['0' + (n % 10) as char];
    if n < 10 then d else Decimal(n / 10) + d
  }

  lemma {:induction false} DecimalValue(n: nat)
    ensures DigitsValue(Decimal(n)) == n
  {
    var d := ['0' + (n % 10) as char];
    if n >= 10 {
      var r := Decimal(n / 10) + d;
      assert r[..|r| - 1] == Decimal(n / 10);
      DecimalValue(n / 10);
    } else {
      assert d[..0] == [];
    }
  }

  lemma {:induction false} TrimKeepsCore(pre: string, core: string, post: string)
    requires AllWhiteSpace(pre) && AllWhiteSpace(post)
    requires |core| > 0 && !IsWhiteSpace(core[0]) && !IsWhiteSpace(core[|core| - 1])
    ensures Trim(pre + core + post) == core
  {
    TrimStartSkips(pre, core + post);
    assert pre + core + post == pre + (core + post);
    TrimEndSkips(core, post);
  }

  lemma {:induction false} TrimStartSkips(pre: string, rest: string)
    requires AllWhiteSpace(pre)
    requires |rest| > 0 && !IsWhiteSpace(rest[0])
    ensures TrimStart(pre + rest) == rest
  {
    if |pre| > 0 {
      assert (pre + rest)[1..] == pre[1..] + rest;
      TrimStartSkips(pre[1..], rest);
    }
  }

  lemma {:induction false} TrimEndSkips(rest: string, post: string)
    requires AllWhiteSpace(post)
    requires |rest| > 0 && !IsWhiteSpace(rest[|rest| - 1])
    ensures TrimEnd(rest + post) == rest
  {
    if |post| > 0 {
      var s := rest + post;
      assert s[..|s| - 1] == rest + post[..|post| - 1];
      TrimEndSkips(rest, post[..|post| - 1]);
    } else {
      assert rest + post == rest;
    }
  }

  /** A string that ends in neither white space nor U+0000 is parsed as it stands. */
  lemma ParsesAsWritten(s: string)
    requires |s| > 0 && !IsWhiteSpace(s[|s| - 1]) && s[|s| - 1] != '\0'
    ensures TryParseInt32(s) == ParseInteger(s)
  {
  }

  lemma {:induction false} DropNulsSkips(rest: string, nuls: string)
    requires forall i :: 0 <= i < |nuls| ==> nuls[i] == '\0'
    requires |rest| > 0 && rest[|rest| - 1] != '\0'
    ensures DropTrailingNuls(rest + nuls) == rest
  {
    if |nuls| > 0 {
      var s := rest + nuls;
      assert s[..|s| - 1] == rest + nuls[..|nuls| - 1];
      DropNulsSkips(rest, nuls[..|nuls| - 1]);
    } else {
      assert rest + nuls == rest;
    }
  }

  /** Any positive count that fits in 32 bits is accepted, however it is padded. */
  lemma AcceptsPaddedDecimal(pre: string, n: nat, post: string)
    requires AllWhiteSpace(pre) && AllWhiteSpace(post)
    requires 0 < n <= Int32Max
    ensures ValidateProcessCount(pre + Decimal(n) + post) == Some(n)
  {
    var d := Decimal(n);
    TrimKeepsCore(pre, d, post);
    ParsesAsWritten(d);
    ParsesDecimal(n);
  }

  /**
   * U+0000 characters straight after the digits are not white space, so
   * Trim keeps them, and int.TryParse ignores them: the count is accepted.
   */
  lemma AcceptsTrailingNuls(pre: string, n: nat, nuls: string, post: string)
    requires AllWhiteSpace(pre) && AllWhiteSpace(post)
    requires forall i :: 0 <= i < |nuls| ==> nuls[i] == '\0'
    requires 0 < n <= Int32Max
    ensures ValidateProcessCount(pre + Decimal(n) + nuls + post) == Some(n)
  {
    var d := Decimal(n);
    var core := d + nuls;
    assert pre + d + nuls + post == pre + core + post;
    assert core[0] == d[0] && !IsWhiteSpace(core[|core| - 1]);
    TrimKeepsCore(pre, core, post);
    ParsesPastNuls(d, nuls);
    ParsesDecimal(n);
  }

  lemma ParsesPastNuls(d: string, nuls: string)
    requires forall i :: 0 <= i < |nuls| ==> nuls[i] == '\0'
    requires |d| > 0 && IsDigit(d[|d| - 1])
    ensures TryParseInt32(d + nuls) == ParseInteger(d)
  {
    DropNulsSkips(d, nuls);
    assert TrimEnd(d) == d;
  }

  /** An unsigned decimal that fits in 32 bits is a ParseInteger of its value. */
  lemma ParsesDecimal(n: nat)
    requires n <= Int32Max
    ensures ParseInteger(Decimal(n)) == Some(n)
  {
    var d := Decimal(n);
    DecimalValue(n);
    assert d[0] != '-' && d[0] != '+';
  }

  lemma {:induction false} TrimUnpadded(s: string)
    requires |s| > 0 && !IsWhiteSpace(s[0]) && !IsWhiteSpace(s[|s| - 1])
    ensures Trim(s) == s
  {
    TrimKeepsCore([], s, []);
    assert [] + s + [] == s;
  }

  /** A signed decimal parses to its signed value when that fits in 32 bits. */
  lemma ParseSigned(sign: char, n: nat)
    requires sign == '-' || sign == '+'
    ensures TryParseInt32([sign] + Decimal(n)) ==
            var v := if sign == '-' then -(n as int) else n;
            if Int32Min <= v <= Int32Max then Some(v) else None
  {
    var d := Decimal(n);
    var s := [sign] + d;
    assert s[|s| - 1] == d[|d| - 1];
    ParsesAsWritten(s);
    ParsesSignedDigits(sign, d);
    DecimalValue(n);
  }

  lemma ParsesSignedDigits(sign: char, d: string)
    requires sign == '-' || sign == '+'
    requires |d| > 0 && AllDigits(d)
    ensures ParseInteger([sign] + d) ==
            var v := if sign == '-' then -(DigitsValue(d) as int) else DigitsValue(d);
            if Int32Min <= v <= Int32Max then Some(v) else None
  {
    var s := [sign] + d;
    assert s[0] == sign && s[1..] == d;
    var m := DigitsValue(d);
    if sign == '-' {
      assert ParseInteger(s) == if Int32Min <= -m then Some(-m) else None;
    } else {
      assert ParseInteger(s) == if m <= Int32Max then Some(m) else None;
    }
  }

  /** An explicit '+' sign is accepted too. */
  lemma AcceptsPlusSign(n: nat)
    requires 0 < n <= Int32Max
    ensures ValidateProcessCount("+" + Decimal(n)) == Some(n)
  {
    TrimUnpadded("+" + Decimal(n));
    ParseSigned('+', n);
  }

  /** Negative counts parse but are refused. */
  lemma RejectsNegative(n: nat)
    ensures ValidateProcessCount("-" + Decimal(n)) == None
  {
    TrimUnpadded("-" + Decimal(n));
    ParseSigned('-', n);
  }

  /** A count of zero parses but is refused, with or without white space around it. */
  lemma RejectsZero(pre: string, post: string)
    requires AllWhiteSpace(pre) && AllWhiteSpace(post)
    ensures ValidateProcessCount(pre + "0" + post) == None
  {
    assert Decimal(0) == "0";
    TrimKeepsCore(pre, "0", post);
    ParsesAsWritten("0");
    ParsesDecimal(0);
  }

  /** A count past 2^31 - 1 overflows int and is refused. */
  lemma RejectsOverflow(n: nat)
    requires n > Int32Max
    ensures ValidateProcessCount(Decimal(n)) == None
  {
    TrimUnpadded(Decimal(n));
    DecimalValue(n);
  }

  /** Blank input is refused. */
  lemma RejectsBlank(ws: string)
    requires AllWhiteSpace(ws)
    ensures ValidateProcessCount(ws) == None
  {
    TrimStartAll(ws);
  }

  /** A sign with no digits after it is refused. */
  lemma RejectsLoneSign(pre: string, sign: char, post: string)
    requires AllWhiteSpace(pre) && AllWhiteSpace(post) && (sign == '-' || sign == '+')
    ensures ValidateProcessCount(pre + [sign] + post) == None
  {
    TrimKeepsCore(pre, [sign], post);
    assert TryParseInt32([sign]) == None;
  }

  lemma {:induction false} TrimStartAll(ws: string)
    requires AllWhiteSpace(ws)
    ensures TrimStart(ws) == []
  {
    if |ws| > 0 {
      TrimStartAll(ws[1..]);
    }
  }
}
