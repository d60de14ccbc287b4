/** Reading text replies: lines, key=value pairs and decimal numbers. */
module Scan {
  import opened Wrappers

  // ----- lines -----

  function IndexOf(s: string, c: char): (r: nat)
    ensures r <= |s|
    ensures r < |s| ==> s[r] == c
    ensures forall i :: 0 <= i < r ==> s[i] != c
  {
    if |s| == 0 || s[0] == c then 0 else 1 + IndexOf(s[1..], c)
  }

  function DropCR(line: string): string {
    if |line| > 0 && line[|line| - 1] == '\r' then line[..|line| - 1] else line
  }

  /** The first line, without its newline and without a carriage return before
      that, and the rest. A last line needs no newline. */
  function ScanLine(p: string): (r: (string, string))
    requires |p| > 0
    ensures |r.1| < |p|
  {
    var i := IndexOf(p, '\n');
    if i == |p| then (DropCR(p), "") else (DropCR(p[..i]), p[i + 1..])
  }

  /** Text that is a line as it stands. */
  predicate IsLine(line: string) {
    '\n' !in line && (|line| > 0 ==> line[|line| - 1] != '\r')
  }

  lemma {:induction false} IndexAfter(line: string, rest: string, c: char)
    requires c !in line
    ensures IndexOf(line + [c] + rest, c) == |line|
  {
    var s := line + [c] + rest;
    assert s[|line|] == c;
    assert forall i :: 0 <= i < |line| ==> s[i] == line[i] && line[i] in line;
  }

  lemma {:induction false} ScanWholeLine(line: string, rest: string)
    requires IsLine(line)
    ensures ScanLine(line + "\n" + rest) == (line, rest)
  {
    IndexAfter(line, rest, '\n');
    var p := line + "\n" + rest;
    assert p[..|line|] == line && p[|line| + 1..] == rest;
  }

  lemma {:induction false} ScanLastLine(line: string)
    requires IsLine(line) && |line| > 0
    ensures ScanLine(line) == (line, "")
  {
  }

  /** A carriage return before the newline is no part of the line. */
  lemma {:induction false} ScanReturnedLine(line: string, rest: string)
    requires '\n' !in line
    ensures ScanLine(line + "\r\n" + rest) == (line, rest)
  {
    var whole := line + "\r";
    assert line + "\r\n" + rest == whole + "\n" + rest;
    IndexAfter(whole, rest, '\n');
    var p := whole + "\n" + rest;
    assert p[..|whole|] == whole && p[|whole| + 1..] == rest && whole[..|line|] == line;
  }

  // ----- pairs -----

  /** The text before and after the first equals sign. */
  function Cut(line: string): Option<(string, string)> {
    var i := IndexOf(line, '=');
    if i == |line| then None else Some((line[..i], line[i + 1..]))
  }

  lemma {:induction false} CutPair(key: string, val: string)
    requires '=' !in key
    ensures Cut(key + "=" + val) == Some((key, val))
  {
    IndexAfter(key, val, '=');
    var line := key + "=" + val;
    assert line[..|key|] == key && line[|key| + 1..] == val;
  }

  /** Whether s contains t. */
  predicate Contains(s: string, t: string) {
    t <= s || (|s| > 0 && Contains(s[1..], t))
  }

  lemma {:induction false} ContainsExactly(s: string, t: string)
    ensures Contains(s, t) <==> exists i :: 0 <= i <= |s| && t <= s[i..]
  {
    assert s[0..] == s;
    if |s| > 0 {
      ContainsExactly(s[1..], t);
      assert forall i :: 0 <= i <= |s[1..]| ==> s[1..][i..] == s[i + 1..];
      if i :| 0 <= i <= |s[1..]| && t <= s[1..][i..] {
        assert t <= s[i + 1..];
      }
      if i :| 0 < i <= |s| && t <= s[i..] {
        assert s[1..][i - 1..] == s[i..];
      }
    }
  }

  /** A line without an equals sign is no pair. */
  lemma {:induction false} CutExactly(line: string)
    ensures Cut(line).None? <==> '=' !in line
    ensures Cut(line).Some? ==> var (key, val) := Cut(line).value; line == key + "=" + val && '=' !in key
  {
    var i := IndexOf(line, '=');
    if i < |line| {
      assert line == line[..i] + "=" + line[i + 1..];
    }
  }

  // ----- numbers -----

  const MIN64 := -0x8000_0000_0000_0000
  const MAX64 := 0x7FFF_FFFF_FFFF_FFFF

  predicate IsInt64(n: int) {
    MIN64 <= n <= MAX64
  }

  /** A 64-bit product keeps its low bits. */
  function Wrap64(n: int): int {
    (n - MIN64) % 0x1_0000_0000_0000_0000 + MIN64
  }

  predicate AllDigits(s: string) {
    forall i :: 0 <= i < |s| ==> '0' <= s[i] <= '9'
  }

  function Value(s: string): int
    requires AllDigits(s)
  {
    if |s| == 0 then 0 else 10 * Value(s[..|s| - 1]) + (s[|s| - 1] as int - '0' as int)
  }

  /** Decimal parsing: an optional sign, at least one digit, and a value of 64 bits. */
  function Atoi(s: string): Option<int> {
    var signed := |s| > 0 && (s[0] == '-' || s[0] == '+');
    var digits := if signed then s[1..] else s;
    if |digits| == 0 || !AllDigits(digits) then None
    else
      var n := if signed && s[0] == '-' then -Value(digits) else Value(digits);
      if IsInt64(n) then Some(n) else None
  }

  function Digits(n: nat): (s: string)
    ensures |s| > 0 && AllDigits(s)
  {
    var last := '0' + (n % 10) as char;
    if n < 10 then [last] else Digits(n / 10) + [last]
  }

  function Itoa(n: int): string {
    if n < 0 then "-" + Digits(-n) else Digits(n)
  }

  lemma {:induction false} ValueOfDigits(n: nat)
    ensures Value(Digits(n)) == n
  {
    var s := Digits(n);
    if n < 10 {
      assert s[..0] == "";
    } else {
      ValueOfDigits(n / 10);
      assert s[..|s| - 1] == Digits(n / 10);
    }
  }

  lemma {:induction false} AtoiOfDigits(ds: string)
    requires |ds| > 0 && AllDigits(ds)
    ensures IsInt64(Value(ds)) ==> Atoi(ds) == Some(Value(ds))
    ensures IsInt64(-Value(ds)) ==> Atoi("-" + ds) == Some(-Value(ds))
  {
    var s := "-" + ds;
    assert s[0] == '-' && s[1..] == ds;
  }

  /** Parsing undoes printing, for every 64-bit number. */
  lemma {:induction false} AtoiOfItoa(n: int)
    requires IsInt64(n)
    ensures Atoi(Itoa(n)) == Some(n)
  {
    var k := if n < 0 then -n else n;
    ValueOfDigits(k);
    AtoiOfDigits(Digits(k));
  }

  /** What is refused as a number: text that has no digit, or a character that is none
      but for a leading sign, or a value of more than 64 bits. */
  lemma {:induction false} AtoiExactly(s: string)
    ensures var signed := |s| > 0 && s[0] in "+-";
            var ds := if signed then s[1..] else s;
            && (Atoi(s).Some? ==> |ds| > 0 && AllDigits(ds) && IsInt64(Atoi(s).value))
            && (|ds| > 0 && AllDigits(ds) ==>
                  var n := if signed && s[0] == '-' then -Value(ds) else Value(ds);
                  Atoi(s) == if IsInt64(n) then Some(n) else None)
  {
  }

  lemma {:induction false} ItoaIsLine(n: int)
    ensures IsLine(Itoa(n)) && |Itoa(n)| > 0
    ensures forall i :: 0 <= i < |Itoa(n)| ==> Itoa(n)[i] == '-' || '0' <= Itoa(n)[i] <= '9'
  {
    var s := Itoa(n);
    forall i | 0 <= i < |s| ensures s[i] == '-' || '0' <= s[i] <= '9' {
      if n < 0 && i > 0 {
        assert s[i] == Digits(-n)[i - 1];
      }
    }
  }

  // ----- surrounding white space -----

  predicate IsSpace(c: char) {
    c == ' ' || c == '\t' || c == '\n' || c == '\r' || c as int == 11 || c as int == 12
  }

  function TrimLeft(s: string): string {
    if |s| > 0 && IsSpace(s[0]) then TrimLeft(s[1..]) else s
  }

  function TrimRight(s: string): string {
    if |s| > 0 && IsSpace(s[|s| - 1]) then TrimRight(s[..|s| - 1]) else s
  }

  function TrimSpace(s: string): string {
    TrimRight(TrimLeft(s))
  }

  predicate AllSpace(s: string) {
    forall i :: 0 <= i < |s| ==> IsSpace(s[i])
  }

  lemma {:induction false} TrimLeftSplits(s: string) returns (pre: string)
    ensures s == pre + TrimLeft(s) && AllSpace(pre)
    ensures |TrimLeft(s)| > 0 ==> !IsSpace(TrimLeft(s)[0])
  {
    if |s| > 0 && IsSpace(s[0]) {
      var rest := TrimLeftSplits(s[1..]);
      pre := [s[0]] + rest;
    } else {
      pre := "";
    }
  }

  lemma {:induction false} TrimRightSplits(s: string) returns (post: string)
    ensures s == TrimRight(s) + post && AllSpace(post)
    ensures |TrimRight(s)| > 0 ==> !IsSpace(TrimRight(s)[|TrimRight(s)| - 1])
  {
    if |s| > 0 && IsSpace(s[|s| - 1]) {
      var rest := TrimRightSplits(s[..|s| - 1]);
      post := rest + [s[|s| - 1]];
    } else {
      post := "";
    }
  }

  /** Trimming takes white space off both ends, all of it, and nothing else. */
  lemma {:induction false} TrimSpaceSplits(s: string) returns (pre: string, post: string)
    ensures s == pre + TrimSpace(s) + post && AllSpace(pre) && AllSpace(post)
    ensures var t := TrimSpace(s);
            |t| > 0 ==> !IsSpace(t[0]) && !IsSpace(t[|t| - 1])
  {
    pre := TrimLeftSplits(s);
    post := TrimRightSplits(TrimLeft(s));
    var t := TrimSpace(s);
    assert |t| > 0 ==> TrimLeft(s)[0] == t[0];
    assert s == pre + (t + post);
  }

  lemma {:induction false} TrimLeftOf(pre: string, t: string)
    requires AllSpace(pre) && (|t| > 0 ==> !IsSpace(t[0]))
    ensures TrimLeft(pre + t) == t
  {
    if |pre| == 0 {
      assert pre + t == t;
    } else {
      assert (pre + t)[1..] == pre[1..] + t;
      TrimLeftOf(pre[1..], t);
    }
  }

  lemma {:induction false} TrimRightOf(t: string, post: string)
    requires AllSpace(post) && (|t| > 0 ==> !IsSpace(t[|t| - 1]))
    ensures TrimRight(t + post) == t
    decreases |post|
  {
    if |post| == 0 {
      assert t + post == t;
    } else {
      var n := |post| - 1;
      assert (t + post)[..|t| + n] == t + post[..n] && (t + post)[|t| + n] == post[n];
      TrimRightOf(t, post[..n]);
    }
  }

  /** Text between two characters that are no white space is what trimming leaves. */
  lemma {:induction false} TrimSpaceOf(pre: string, t: string, post: string)
    requires AllSpace(pre) && AllSpace(post)
    requires |t| > 0 && !IsSpace(t[0]) && !IsSpace(t[|t| - 1])
    ensures TrimSpace(pre + t + post) == t
  {
    TrimLeftOf(pre, t + post);
    assert pre + t + post == pre + (t + post);
    assert (t + post)[0] == t[0];
    TrimRightOf(t, post);
  }
}
