/** The comma-separated integer list of the benchmark's command line. */
module IntList {
  import opened Sequences
  import opened Status

  predicate IsDigit(c: char) { '0' <= c <= '9' }

  predicate IsSpace(c: char) { c == ' ' || 9 as char <= c <= 13 as char }

  function DigitValue(c: char): int
    requires IsDigit(c)
  {
    c as int - '0' as int
  }

  /** The leading digits of s, appended to acc. */
  function ParseDigits(s: string, acc: int): int {
    if s == [] || !IsDigit(s[0]) then acc else ParseDigits(s[1..], acc * 10 + DigitValue(s[0]))
  }

  /** C's atoi without overflow: leading white space, an optional sign, then digits. */
  function Atoi(s: string): int {
    if s == [] then 0
    else if IsSpace(s[0]) then Atoi(s[1..])
    else if s[0] == '-' then -ParseDigits(s[1..], 0)
    else if s[0] == '+' then ParseDigits(s[1..], 0)
    else ParseDigits(s, 0)
  }

  ghost predicate AllDigits(s: string) {
    forall i :: 0 <= i < |s| ==> '0' <= s[i] <= '9'
  }

  /** Blanks, tabs, line feeds, vertical tabs, form feeds and carriage returns only. */
  ghost predicate AllSpaces(s: string) {
    forall i :: 0 <= i < |s| ==> s[i] as int == 32 || 9 <= s[i] as int <= 13
  }

  /** Digits are read in base ten, up to the first character that is none. */
  lemma {:induction false} DigitsRead(digits: string, c: char, rest: string)
    requires AllDigits(digits) && '0' <= c <= '9' && (rest == [] || !('0' <= rest[0] <= '9'))
    ensures ParseDigits([], 0) == 0
    ensures ParseDigits(digits + [c], 0) == 10 * ParseDigits(digits, 0) + (c as int - 48)
    ensures ParseDigits(digits + rest, 0) == ParseDigits(digits, 0)
  {
    ParseSnoc(digits, c, 0);
    StopsAfterDigits(digits, rest, 0);
  }

  lemma {:induction false} StopsAfterDigits(digits: string, rest: string, acc: int)
    requires AllDigits(digits) && (rest == [] || !IsDigit(rest[0]))
    ensures ParseDigits(digits + rest, acc) == ParseDigits(digits, acc)
  {
    if digits == [] {
      assert digits + rest == rest;
    } else {
      assert (digits + rest)[1..] == digits[1..] + rest;
      StopsAfterDigits(digits[1..], rest, acc * 10 + DigitValue(digits[0]));
    }
  }

  lemma {:induction false} SkipSpaces(spaces: string, s: string)
    requires AllSpaces(spaces)
    ensures Atoi(spaces + s) == Atoi(s)
  {
    if spaces == [] {
      assert spaces + s == s;
    } else {
      assert (spaces + s)[1..] == spaces[1..] + s && IsSpace(spaces[0]);
      SkipSpaces(spaces[1..], s);
    }
  }

  /** What a segment stands for: leading white space is skipped, one sign is taken, the digits count until the first
      other character, and a segment without digits there is 0. */
  lemma {:induction false} AtoiIs(spaces: string, digits: string, rest: string)
    requires AllSpaces(spaces) && AllDigits(digits) && (rest == [] || !('0' <= rest[0] <= '9'))
    ensures Atoi(spaces + ("-" + digits + rest)) == -ParseDigits(digits, 0)
    ensures Atoi(spaces + ("+" + digits + rest)) == ParseDigits(digits, 0)
    ensures digits != [] ==> Atoi(spaces + (digits + rest)) == ParseDigits(digits, 0)
    ensures rest == [] || !(rest[0] as int == 32 || 9 <= rest[0] as int <= 13 || rest[0] == '-' || rest[0] == '+') ==>
      Atoi(spaces + rest) == 0
  {
    SkipSpaces(spaces, "-" + digits + rest);
    SkipSpaces(spaces, "+" + digits + rest);
    SkipSpaces(spaces, digits + rest);
    SkipSpaces(spaces, rest);
    StopsAfterDigits(digits, rest, 0);
    SignedStart(digits + rest, '-');
    SignedStart(digits + rest, '+');
    assert "-" + digits + rest == ['-'] + (digits + rest) && "+" + digits + rest == ['+'] + (digits + rest);
    if digits != [] {
      assert (digits + rest)[0] == digits[0];
      DigitStart(digits + rest);
    }
    NoStart(rest);
    hide Atoi, ParseDigits, AllDigits, AllSpaces;
  }

  lemma SignedStart(s: string, sign: char)
    requires sign == '-' || sign == '+'
    ensures Atoi([sign] + s) == if sign == '-' then -ParseDigits(s, 0) else ParseDigits(s, 0)
  {
    assert ([sign] + s)[1..] == s;
  }

  lemma DigitStart(s: string)
    requires s != [] && '0' <= s[0] <= '9'
    ensures Atoi(s) == ParseDigits(s, 0)
  {
  }

  lemma NoStart(s: string)
    requires s == [] || !('0' <= s[0] <= '9')
    ensures s == [] || !(s[0] as int == 32 || 9 <= s[0] as int <= 13 || s[0] == '-' || s[0] == '+') ==> Atoi(s) == 0
  {
  }

  /** Position of the first comma at or after `start`, or |s| when there is none. */
  function FindComma(s: string, start: nat): (pos: nat)
    requires start <= |s|
    ensures start <= pos <= |s|
    ensures forall i :: start <= i < pos ==> s[i] != ','
    ensures pos < |s| ==> s[pos] == ','
    decreases |s| - start
  {
    if start == |s| || s[start] == ',' then start else FindComma(s, start + 1)
  }

  /** The segments between the commas from `start` on. */
  function SplitFrom(s: string, start: nat): (r: seq<string>)
    requires start <= |s|
    ensures r != []
    decreases |s| - start
  {
    var pos := FindComma(s, start);
    if pos == |s| then [s[start..]] else [s[start..pos]] + SplitFrom(s, pos + 1)
  }

  lemma {:induction false} SplitStep(s: string, start: nat, pos: nat)
    requires start <= pos <= |s| && (pos < |s| ==> s[pos] == ',')
    requires forall i :: start <= i < pos ==> s[i] != ','
    ensures SplitFrom(s, start)
         == if pos == |s| then [s[start..]] else [s[start..pos]] + SplitFrom(s, pos + 1)
  {
    assert FindComma(s, start) == pos;
  }

  function Values(s: string, start: nat): seq<int>
    requires start <= |s|
  {
    Map(Atoi, SplitFrom(s, start))
  }

  lemma {:induction false} ValuesStep(s: string, start: nat, pos: nat)
    requires start <= pos <= |s| && (pos < |s| ==> s[pos] == ',')
    requires forall i :: start <= i < pos ==> s[i] != ','
    ensures Values(s, start) == if pos == |s| then [Atoi(s[start..])] else [Atoi(s[start..pos])] + Values(s, pos + 1)
  {
    hide SplitFrom, FindComma, Atoi;
    SplitStep(s, start, pos);
    if pos < |s| {
      MapConcat(Atoi, [s[start..pos]], SplitFrom(s, pos + 1));
    }
  }

  /** None stands for a null argument. */
  method ParseIntList(arg: Option<string>, defaults: seq<int>) returns (result: seq<int>)
    ensures result == match arg case None => defaults case Some(s) => Values(s, 0)
  {
    if arg.None? {
      return defaults;
    }
    hide Values, FindComma, Atoi;
    var s := arg.value;
    result := [];
    var start := 0;
    while true
      invariant start <= |s|
      invariant result + Values(s, start) == Values(s, 0)
      decreases |s| - start
    {
      var pos := FindComma(s, start);
      ValuesStep(s, start, pos);
      if pos == |s| {
        result := result + [Atoi(s[start..])];
        break;
      }
      ConcatAssociative(result, [Atoi(s[start..pos])], Values(s, pos + 1));
      result := result + [Atoi(s[start..pos])];
      start := pos + 1;
    }
  }

  // ----- splitting and joining -----

  function Join(parts: seq<string>): string
    requires parts != []
  {
    if |parts| == 1 then parts[0] else parts[0] + "," + Join(parts[1..])
  }

  function IsComma(c: char): bool { c == ',' }

  function NumCommas(s: string): nat { CountBy(IsComma, s) }

  lemma {:induction false} JoinFirst(part: string, rest: seq<string>)
    requires rest != []
    ensures Join([part] + rest) == part + "," + Join(rest)
  {
    assert ([part] + rest)[1..] == rest;
  }

  lemma CutAtComma(s: string, start: nat, pos: nat)
    requires start <= pos < |s| && s[pos] == ','
    ensures s[start..] == s[start..pos] + "," + s[pos + 1..]
  {
  }

  /** The segments rejoined by commas are the input. */
  lemma {:induction false} JoinSplit(s: string, start: nat)
    requires start <= |s|
    ensures Join(SplitFrom(s, start)) == s[start..]
    decreases |s| - start
  {
    hide SplitFrom, Join;
    var pos := FindComma(s, start);
    SplitStep(s, start, pos);
    if pos < |s| {
      JoinSplit(s, pos + 1);
      JoinFirst(s[start..pos], SplitFrom(s, pos + 1));
      CutAtComma(s, start, pos);
    } else {
      JoinOne(s[start..]);
    }
  }

  lemma JoinOne(part: string)
    ensures Join([part]) == part
  {
  }

  lemma {:induction false} NoCommas(s: string)
    requires ',' !in s
    ensures NumCommas(s) == 0
  {
    if s != [] {
      NoCommas(s[..|s| - 1]);
      assert s[|s| - 1] in s;
    }
  }

  lemma {:induction false} CommaBetween(a: string, b: string)
    ensures NumCommas(a + "," + b) == NumCommas(a) + 1 + NumCommas(b)
  {
    CountConcat(IsComma, a + ",", b);
    CountConcat(IsComma, a, ",");
    assert NumCommas(",") == 1;
  }

  /** There is one more segment than there are commas, and no segment contains one. */
  lemma {:induction false} SplitCounts(s: string, start: nat)
    requires start <= |s|
    ensures |SplitFrom(s, start)| == NumCommas(s[start..]) + 1
    ensures forall i :: 0 <= i < |SplitFrom(s, start)| ==> ',' !in SplitFrom(s, start)[i]
    decreases |s| - start
  {
    hide SplitFrom, NumCommas;
    var pos := FindComma(s, start);
    SplitStep(s, start, pos);
    var part := s[start..pos];
    assert ',' !in part;
    NoCommas(part);
    if pos < |s| {
      SplitCounts(s, pos + 1);
      CutAtComma(s, start, pos);
      CommaBetween(part, s[pos + 1..]);
    } else {
      assert part == s[start..];
    }
  }

  /** Where the first comma of part + "," + rest lies when that text is the tail of s. */
  lemma {:induction false} CutAt(s: string, start: nat, part: string, rest: string)
    requires start <= |s| && s[start..] == part + "," + rest && ',' !in part
    ensures var pos := start + |part|;
      && pos < |s| && s[start..pos] == part && s[pos] == ',' && s[pos + 1..] == rest
      && forall i :: start <= i < pos ==> s[i] != ','
  {
    var t, pos := s[start..], start + |part|;
    assert t[..|part|] == part && t[|part|] == ',' && t[|part| + 1..] == rest;
    assert forall i :: start <= i < |s| ==> s[i] == t[i - start];
    assert forall i :: start <= i < pos ==> s[i] == part[i - start];
  }

  /** Splitting undoes joining for comma-free parts. */
  lemma {:induction false} SplitJoin(parts: seq<string>, s: string, start: nat)
    requires parts != [] && forall i :: 0 <= i < |parts| ==> ',' !in parts[i]
    requires start <= |s| && s[start..] == Join(parts)
    ensures SplitFrom(s, start) == parts
    decreases |parts|
  {
    hide SplitFrom, FindComma;
    var part := parts[0];
    if |parts| == 1 {
      assert forall i :: start <= i < |s| ==> s[i] == part[i - start];
      SplitStep(s, start, |s|);
    } else {
      CutAt(s, start, part, Join(parts[1..]));
      SplitStep(s, start, start + |part|);
      SplitJoin(parts[1..], s, start + |part| + 1);
      assert parts == [part] + parts[1..];
    }
  }

  // ----- printing and parsing -----

  function Digits(n: nat): (s: string)
    ensures s != [] && forall i :: 0 <= i < |s| ==> IsDigit(s[i])
  {
    var last := [('0' as int + n % 10) as char];
    if n < 10 then last else Digits(n / 10) + last
  }

  function Decimal(n: int): string {
    if n < 0 then "-" + Digits(-n) else Digits(n)
  }

  lemma {:induction false} ParseSnoc(s: string, c: char, acc: int)
    requires IsDigit(c) && forall i :: 0 <= i < |s| ==> IsDigit(s[i])
    ensures ParseDigits(s + [c], acc) == ParseDigits(s, acc) * 10 + DigitValue(c)
  {
    if s == [] {
      assert s + [c] == [c];
    } else {
      assert (s + [c])[1..] == s[1..] + [c];
      ParseSnoc(s[1..], c, acc * 10 + DigitValue(s[0]));
    }
  }

  lemma {:induction false} ParseOfDigits(n: nat)
    ensures ParseDigits(Digits(n), 0) == n
  {
    var c := ('0' as int + n % 10) as char;
    if n < 10 {
      assert ParseDigits([c], 0) == n;
    } else {
      ParseOfDigits(n / 10);
      ParseSnoc(Digits(n / 10), c, 0);
    }
  }

  lemma {:induction false} AtoiOfDecimal(n: int)
    ensures Atoi(Decimal(n)) == n
    ensures ',' !in Decimal(n)
  {
    if n < 0 {
      ParseOfDigits(-n);
      assert ("-" + Digits(-n))[1..] == Digits(-n);
    } else {
      ParseOfDigits(n);
    }
  }

  /** Printing a non-empty list of ints in decimal with commas and parsing it back gives the list. */
  lemma {:induction false} ParseInvertsPrint(ns: seq<int>)
    requires ns != []
    ensures Values(Join(Map(Decimal, ns)), 0) == ns
  {
    var parts := Map(Decimal, ns);
    forall i | 0 <= i < |ns| ensures ',' !in parts[i] && Atoi(parts[i]) == ns[i] {
      AtoiOfDecimal(ns[i]);
    }
    SplitJoin(parts, Join(parts), 0);
  }
}
