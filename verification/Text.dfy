/** Character-level helpers behind the decimal and timestamp parsers, over ASCII text. */
module Text {
  import opened Wrappers
  import opened MachineInt

  predicate IsDigit(c: char) {
    '0' <= c <= '9'
  }

  predicate AllDigits(s: string) {
    forall i :: 0 <= i < |s| ==> IsDigit(s[i])
  }

  function DigitValue(c: char): (d: nat)
    requires IsDigit(c)
    ensures d <= 9
  {
    c as int - '0' as int
  }

  function DigitChar(d: nat): (c: char)
    requires d <= 9
    ensures IsDigit(c) && DigitValue(c) == d
  {
    ('0' as int + d) as char
  }

  /** Ten to the k, multiplied up from one; the accumulator keeps products of powers folded. */
  function Pow10(k: nat): (r: nat)
    ensures r >= 1
  {
    TenTimes(1, k)
  }

  function TenTimes(acc: nat, k: nat): (r: nat)
    ensures acc >= 1 ==> r >= 1
    decreases k
  {
    if k == 0 then acc else TenTimes(10 * acc, k - 1)
  }

  lemma {:induction false} TenTimesScales(acc: nat, k: nat)
    ensures TenTimes(acc, k) == acc * Pow10(k)
    decreases k
  {
    if k > 0 {
      TenTimesScales(10 * acc, k - 1);
      TenTimesScales(10, k - 1);
      Tenfold(acc, Pow10(k - 1));
    }
  }

  lemma Tenfold(acc: int, power: int)
    ensures (10 * acc) * power == acc * (10 * power)
  {
  }

  lemma Pow10Step(k: nat)
    ensures Pow10(k + 1) == 10 * Pow10(k)
  {
    TenTimesScales(10, k);
  }

  /** The number a digit string denotes. */
  function DigitsValue(s: string): nat
    requires AllDigits(s)
  {
    if s == [] then 0 else 10 * DigitsValue(s[..|s| - 1]) + DigitValue(s[|s| - 1])
  }

  /** A signed 64-bit integer: optional sign, at least one digit, digits only, in range. */
  function ParseI64(s: string): Option<int> {
    if s == [] then None
    else
      var signed := s[0] == '-' || s[0] == '+';
      var body := if signed then s[1..] else s;
      if body == [] || !AllDigits(body) then None
      else
        var n: int := if s[0] == '-' then 0 - DigitsValue(body) else DigitsValue(body);
        if FitsI64(n) then Some(n) else None
  }

  lemma ParseDigits(s: string)
    requires s != [] && AllDigits(s)
    ensures ParseI64(s) == if DigitsValue(s) <= I64_MAX then Some(DigitsValue(s)) else None
  {
    assert IsDigit(s[0]);
  }

  lemma {:induction false} Pow10Add(a: nat, b: nat)
    ensures Pow10(a + b) == Pow10(a) * Pow10(b)
    decreases b
  {
    if b > 0 {
      Pow10Add(a, b - 1);
      Pow10Step(a + b - 1);
      Pow10Step(b - 1);
      assert Pow10(a) * (10 * Pow10(b - 1)) == 10 * (Pow10(a) * Pow10(b - 1));
    }
  }

  lemma {:induction false} DigitsBelowPow10(s: string)
    requires AllDigits(s)
    ensures DigitsValue(s) < Pow10(|s|)
  {
    if s != [] {
      DigitsBelowPow10(s[..|s| - 1]);
      Pow10Step(|s| - 1);
    }
  }

  lemma {:induction false} DigitsConcat(a: string, b: string)
    requires AllDigits(a) && AllDigits(b)
    ensures AllDigits(a + b) && DigitsValue(a + b) == DigitsValue(a) * Pow10(|b|) + DigitsValue(b)
    decreases |b|
  {
    if b == [] {
      assert a + b == a;
    } else {
      var init := b[..|b| - 1];
      DigitsConcat(a, init);
      Pow10Step(|init|);
      assert (a + b)[..|a + b| - 1] == a + init;
      OneMoreDigit(DigitsValue(a), Pow10(|init|), DigitsValue(init), DigitValue(b[|b| - 1]));
    }
  }

  lemma OneMoreDigit(high: int, power: int, low: int, digit: int)
    ensures 10 * (high * power + low) + digit == high * (10 * power) + (10 * low + digit)
  {
    assert high * (10 * power) == 10 * (high * power);
  }

  function Zeros(n: nat): (s: string)
    ensures |s| == n && AllDigits(s)
  {
    seq(n, i => '0')
  }

  predicate AllZeros(s: string) {
    forall i :: 0 <= i < |s| ==> s[i] == '0'
  }

  lemma {:induction false} ZeroExactlyWhenAllZeros(s: string)
    requires AllDigits(s)
    ensures DigitsValue(s) == 0 <==> AllZeros(s)
  {
    if s != [] {
      ZeroExactlyWhenAllZeros(s[..|s| - 1]);
      assert AllZeros(s) <==> AllZeros(s[..|s| - 1]) && s[|s| - 1] == '0';
    }
  }

  // ------------------------------------------------------------------ rendering

  /** Plain decimal, no leading zero. */
  function Show(n: nat): (s: string)
    ensures s != [] && AllDigits(s) && DigitsValue(s) == n
  {
    if n < 10 then
      var s := [DigitChar(n)];
      assert s[..0] == [];
      s
    else
      var init, last := Show(n / 10), DigitChar(n % 10);
      assert (init + [last])[..|init|] == init;
      init + [last]
  }

  /** A signed integer, plus sign left out. */
  function ShowInt(n: int): string {
    if n < 0 then ['-'] + Show(-n) else Show(n)
  }

  /** A shown integer reads back exactly when it fits 64 bits, sign included, and a plus sign changes nothing. */
  lemma IntegersReadBack(n: int)
    ensures ParseI64(ShowInt(n)) == if FitsI64(n) then Some(n) else None
    ensures n >= 0 ==> ParseI64(['+'] + Show(n)) == ParseI64(ShowInt(n))
  {
    if n < 0 {
      var s := ShowInt(n);
      assert s[0] == '-' && s[1..] == Show(-n);
    } else {
      assert IsDigit(Show(n)[0]);
      assert (['+'] + Show(n))[1..] == Show(n);
    }
  }

  /** Fixed width, zero padded. */
  function Padded(n: nat, width: nat): (s: string)
    requires n < Pow10(width)
    ensures |s| == width && AllDigits(s) && DigitsValue(s) == n
  {
    if width == 0 then []
    else
      Pow10Step(width - 1);
      var init, last := Padded(n / 10, width - 1), DigitChar(n % 10);
      assert (init + [last])[..|init|] == init;
      init + [last]
  }

  // ------------------------------------------------------------------- trimming

  /** Unicode White_Space, which trimming removes. */
  predicate IsWhite(c: char) {
    var n := c as int;
    || 0x9 <= n <= 0xD || n == 0x20 || n == 0x85 || n == 0xA0 || n == 0x1680
    || 0x2000 <= n <= 0x200A || n == 0x2028 || n == 0x2029 || n == 0x202F || n == 0x205F || n == 0x3000
  }

  /** The twenty-five characters of that property. */
  lemma WhiteSpaceTable(c: char)
    ensures IsWhite(c)
            <==> c as int in {9, 10, 11, 12, 13, 32, 133, 160, 5760, 8192, 8193, 8194, 8195, 8196, 8197, 8198, 8199,
                              8200, 8201, 8202, 8232, 8233, 8239, 8287, 12288}
  {
  }

  function TrimStart(s: string): string {
    if s != [] && IsWhite(s[0]) then TrimStart(s[1..]) else s
  }

  function TrimEnd(s: string): string {
    if s != [] && IsWhite(s[|s| - 1]) then TrimEnd(s[..|s| - 1]) else s
  }

  function Trim(s: string): string {
    TrimEnd(TrimStart(s))
  }

  lemma TrimKeeps(s: string)
    requires s != [] ==> !IsWhite(s[0]) && !IsWhite(s[|s| - 1])
    ensures Trim(s) == s
  {
  }

  /** The white space of plain text files. */
  predicate Blank(s: string) {
    forall i :: 0 <= i < |s| ==> s[i] == ' ' || s[i] == '\t' || s[i] == '\n' || s[i] == '\r'
  }

  /** Trimming takes off exactly the blanks around a text that has none at its ends. */
  lemma {:induction false} BlanksComeOff(before: string, s: string, after: string)
    requires Blank(before) && Blank(after) && s != [] && !IsWhite(s[0]) && !IsWhite(s[|s| - 1])
    ensures Trim(before + s + after) == s
  {
    StartComesOff(before, s + after);
    assert before + s + after == before + (s + after);
    EndComesOff(s, after);
  }

  lemma {:induction false} StartComesOff(before: string, rest: string)
    requires Blank(before) && rest != [] && !IsWhite(rest[0])
    ensures TrimStart(before + rest) == rest
  {
    if before == [] {
      assert before + rest == rest;
    } else {
      assert (before + rest)[0] == before[0] && (before + rest)[1..] == before[1..] + rest;
      StartComesOff(before[1..], rest);
    }
  }

  lemma {:induction false} EndComesOff(s: string, after: string)
    requires Blank(after) && s != [] && !IsWhite(s[|s| - 1])
    ensures TrimEnd(s + after) == s
    decreases |after|
  {
    var all := s + after;
    if after == [] {
      assert all == s;
    } else {
      assert all[|all| - 1] == after[|after| - 1] && all[..|all| - 1] == s + after[..|after| - 1];
      EndComesOff(s, after[..|after| - 1]);
    }
  }

  function UnquoteStart(s: string): string {
    if s != [] && s[0] == '"' then UnquoteStart(s[1..]) else s
  }

  function UnquoteEnd(s: string): string {
    if s != [] && s[|s| - 1] == '"' then UnquoteEnd(s[..|s| - 1]) else s
  }

  function Unquote(s: string): string {
    UnquoteEnd(UnquoteStart(s))
  }

  /** Everything before the first occurrence, or the whole text. */
  function Before(s: string, c: char): string {
    if s == [] || s[0] == c then [] else [s[0]] + Before(s[1..], c)
  }

  /** Everything after the first occurrence, or nothing. */
  function After(s: string, c: char): string {
    if s == [] then [] else if s[0] == c then s[1..] else After(s[1..], c)
  }

  predicate Lacks(s: string, c: char) {
    forall i :: 0 <= i < |s| ==> s[i] != c
  }

  lemma {:induction false} CutAt(a: string, c: char, b: string)
    requires Lacks(a, c)
    ensures Before(a + [c] + b, c) == a && After(a + [c] + b, c) == b
    ensures Before(a, c) == a && After(a, c) == []
  {
    if a != [] {
      CutAt(a[1..], c, b);
      assert (a + [c] + b)[1..] == a[1..] + [c] + b;
    }
  }

  function WithoutSuffix(s: string, suffix: string): Option<string> {
    if |suffix| <= |s| && s[|s| - |suffix|..] == suffix then Some(s[..|s| - |suffix|]) else None
  }

  // -------------------------------------------------------------------- splitting

  predicate IsSeparator(c: char) {
    c == '-' || c == 'T' || c == ':'
  }

  function Field(s: string): (f: string)
    ensures |f| <= |s| && f == s[..|f|]
    ensures forall i :: 0 <= i < |f| ==> !IsSeparator(f[i])
    ensures |f| < |s| ==> IsSeparator(s[|f|])
  {
    if s == [] || IsSeparator(s[0]) then [] else [s[0]] + Field(s[1..])
  }

  /** Fields between separators; n separators make n + 1 fields. */
  function Split(s: string): seq<string> {
    var f := Field(s);
    if |f| == |s| then [f] else [f] + Split(s[|f| + 1..])
  }

  predicate NoSeparator(s: string) {
    forall i :: 0 <= i < |s| ==> !IsSeparator(s[i])
  }

  lemma {:induction false} WholeField(a: string)
    requires NoSeparator(a)
    ensures Field(a) == a
  {
    if a != [] {
      WholeField(a[1..]);
    }
  }

  lemma {:induction false} FieldUpTo(a: string, c: char, rest: string)
    requires NoSeparator(a) && IsSeparator(c)
    ensures Field(a + [c] + rest) == a
  {
    if a != [] {
      FieldUpTo(a[1..], c, rest);
      assert (a + [c] + rest)[1..] == a[1..] + [c] + rest;
    }
  }

  /** Fields with separators between them. */
  function Join(fields: seq<string>, separators: seq<char>): string
    requires |fields| == |separators| + 1
  {
    if separators == [] then fields[0]
    else fields[0] + [separators[0]] + Join(fields[1..], separators[1..])
  }

  ghost predicate Separated(fields: seq<string>, separators: seq<char>) {
    && |fields| == |separators| + 1
    && (forall i :: 0 <= i < |fields| ==> NoSeparator(fields[i]))
    && (forall i :: 0 <= i < |separators| ==> IsSeparator(separators[i]))
  }

  /** Splitting undoes joining. */
  lemma {:induction false} SplitJoin(fields: seq<string>, separators: seq<char>)
    requires Separated(fields, separators)
    ensures Split(Join(fields, separators)) == fields
  {
    if separators == [] {
      SplitAlone(fields[0]);
      assert fields == [fields[0]];
    } else {
      SeparatedRest(fields, separators);
      SplitJoin(fields[1..], separators[1..]);
      SplitFields(fields, separators[0], Join(fields[1..], separators[1..]));
    }
  }

  lemma SeparatedRest(fields: seq<string>, separators: seq<char>)
    requires Separated(fields, separators) && separators != []
    ensures NoSeparator(fields[0]) && IsSeparator(separators[0]) && Separated(fields[1..], separators[1..])
  {
  }

  lemma SplitFields(fields: seq<string>, c: char, rest: string)
    requires fields != [] && NoSeparator(fields[0]) && IsSeparator(c) && Split(rest) == fields[1..]
    ensures Split(fields[0] + [c] + rest) == fields
  {
    SplitHead(fields[0], c, rest, fields[1..]);
    assert fields == [fields[0]] + fields[1..];
  }

  lemma SplitAlone(a: string)
    requires NoSeparator(a)
    ensures Split(a) == [a]
  {
    WholeField(a);
  }

  lemma SplitHead(a: string, c: char, rest: string, parts: seq<string>)
    requires NoSeparator(a) && IsSeparator(c) && Split(rest) == parts
    ensures Split(a + [c] + rest) == [a] + parts
  {
    FieldUpTo(a, c, rest);
    assert (a + [c] + rest)[|a| + 1..] == rest;
  }

  /** Joining two lists with one more separator between them. */
  lemma {:induction false} JoinAppend(f1: seq<string>, s1: seq<char>, c: char, f2: seq<string>, s2: seq<char>)
    requires |f1| == |s1| + 1 && |f2| == |s2| + 1
    ensures Join(f1 + f2, s1 + [c] + s2) == Join(f1, s1) + [c] + Join(f2, s2)
  {
    if s1 == [] {
      assert (f1 + f2)[1..] == f2 && ([c] + s2)[1..] == s2 && s1 + [c] + s2 == [c] + s2;
    } else {
      assert (f1 + f2)[1..] == f1[1..] + f2;
      assert (s1 + [c] + s2)[1..] == s1[1..] + [c] + s2;
      JoinAppend(f1[1..], s1[1..], c, f2, s2);
    }
  }

  /** Lengthening the last field lengthens the text. */
  lemma {:induction false} JoinLast(fields: seq<string>, separators: seq<char>, tail: string)
    requires |fields| == |separators| + 1
    ensures Join(fields[|fields| - 1 := fields[|fields| - 1] + tail], separators) == Join(fields, separators) + tail
  {
    var longer := fields[|fields| - 1 := fields[|fields| - 1] + tail];
    if separators != [] {
      var head, rest := fields[0] + [separators[0]], Join(fields[1..], separators[1..]);
      JoinLast(fields[1..], separators[1..], tail);
      assert longer[1..] == fields[1..][|fields| - 2 := fields[|fields| - 1] + tail];
      assert Join(longer, separators) == head + (rest + tail);
      assert head + (rest + tail) == (head + rest) + tail;
    }
  }
}
