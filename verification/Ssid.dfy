/** The escaping of SSIDs in STATUS replies: hostapd's printf_encode, and the
    decoder that undoes it. A string here is a string of bytes, one a character. */
module Ssid {
  import opened Wrappers
  import opened Mac

  predicate IsBytes(s: string) {
    forall i :: 0 <= i < |s| ==> s[i] as int < 256
  }

  const ESC := 27 as char

  // ----- the encoder, as hostapd documents it -----

  function LowerDigit(n: int): (c: char)
    requires 0 <= n < 16
    ensures FromHex(c) == Some(n)
  {
    if n < 10 then '0' + n as char else 'a' + (n - 10) as char
  }

  function EncodeByte(c: char): string
    requires c as int < 256
  {
    if c == '"' then "\\\""
    else if c == '\\' then "\\\\"
    else if c == ESC then "\\e"
    else if c == '\n' then "\\n"
    else if c == '\r' then "\\r"
    else if c == '\t' then "\\t"
    else if 32 <= c as int <= 126 then [c]
    else ['\\', 'x', LowerDigit(c as int / 16), LowerDigit(c as int % 16)]
  }

  function PrintfEncode(s: string): string
    requires IsBytes(s)
  {
    if |s| == 0 then "" else EncodeByte(s[0]) + PrintfEncode(s[1..])
  }

  // ----- the decoder -----

  function Prepend(s: string, r: Option<string>): Option<string> {
    if r.None? then None else Some(s + r.value)
  }

  /** What an escape letter other than x stands for; unknown ones stand for
      themselves. */
  function Unescape(c: char): char {
    match c
    case 'e' => ESC
    case 'n' => '\n'
    case 'r' => '\r'
    case 't' => '\t'
    case _ => c
  }

  /** None where the source reports an error. A text that ends right after the
      letters of a hexadecimal escape is no error: the copy of its digits ends at
      once. */
  function Decode(v: string): Option<string> {
    if |v| == 0 then Some("")
    else if v[0] != '\\' then Prepend([v[0]], Decode(v[1..]))
    else if |v| == 1 then None
    else if v[1] != 'x' then Prepend([Unescape(v[1])], Decode(v[2..]))
    else if |v| == 2 then Some("")
    else if |v| == 3 || FromHex(v[2]).None? || FromHex(v[3]).None? then None
    else Prepend([(16 * FromHex(v[2]).value + FromHex(v[3]).value) as char], Decode(v[4..]))
  }

  lemma {:induction false} PrependNothing(r: Option<string>)
    ensures Prepend("", r) == r
  {
    if r.Some? {
      assert "" + r.value == r.value;
    }
  }

  lemma {:induction false} PrependTwice(s: string, t: string, r: Option<string>)
    ensures Prepend(s, Prepend(t, r)) == Prepend(s + t, r)
  {
    if r.Some? {
      assert s + (t + r.value) == (s + t) + r.value;
    }
  }

  /** The loop of the source: a reader at position pos, a builder s. */
  method DecodeSSID(v: string) returns (r: Option<string>)
    ensures r == Decode(v)
  {
    var s, pos := "", 0;
    assert v[0..] == v;
    PrependNothing(Decode(v));
    while pos < |v|
      invariant 0 <= pos <= |v|
      invariant Decode(v) == Prepend(s, Decode(v[pos..]))
      decreases |v| - pos
    {
      ghost var rest := v[pos..];
      var c := v[pos];
      pos := pos + 1;
      assert rest[1..] == v[pos..];
      if c != '\\' {
        PrependTwice(s, [c], Decode(v[pos..]));
        s := s + [c];
        continue;
      }
      if pos == |v| {
        return None;
      }
      c := v[pos];
      pos := pos + 1;
      assert rest[2..] == v[pos..];
      if c == 'x' {
        var digits := if |v| - pos < 2 then |v| - pos else 2;
        if digits == 1 {
          return None;
        }
        if digits == 2 {
          var hi, lo := FromHex(v[pos]), FromHex(v[pos + 1]);
          assert rest[2] == v[pos] && rest[3] == v[pos + 1];
          if hi.None? || lo.None? {
            return None;
          }
          pos := pos + 2;
          assert rest[4..] == v[pos..];
          PrependTwice(s, [(16 * hi.value + lo.value) as char], Decode(v[pos..]));
          s := s + [(16 * hi.value + lo.value) as char];
        }
      } else {
        PrependTwice(s, [Unescape(c)], Decode(v[pos..]));
        s := s + [Unescape(c)];
      }
    }
    assert v[pos..] == "" && s + "" == s;
    r := Some(s);
  }

  // ----- the decoder undoes the encoder -----

  lemma {:induction false} DecodeEncodedByte(c: char, rest: string)
    requires c as int < 256
    ensures Decode(EncodeByte(c) + rest) == Prepend([c], Decode(rest))
  {
    var e := EncodeByte(c);
    var v := e + rest;
    if |e| == 1 {
      assert v[1..] == rest;
    } else if |e| == 2 {
      assert v[2..] == rest;
    } else {
      assert v[4..] == rest;
      assert v[2] == LowerDigit(c as int / 16) && v[3] == LowerDigit(c as int % 16);
      assert (16 * (c as int / 16) + c as int % 16) as char == c;
    }
  }

  lemma {:induction false} RoundTripStep(c: char, rest: string, s: string)
    requires c as int < 256 && Decode(rest) == Some(s)
    ensures Decode(EncodeByte(c) + rest) == Some([c] + s)
  {
    DecodeEncodedByte(c, rest);
  }

  /** For every string of bytes. */
  lemma {:induction false} RoundTrip(s: string)
    requires IsBytes(s)
    ensures Decode(PrintfEncode(s)) == Some(s)
  {
    if |s| > 0 {
      var c, t := s[0], s[1..];
      var rest := PrintfEncode(t);
      assert Decode(EncodeByte(c) + rest) == Some(s) by {
        RoundTrip(t);
        RoundTripStep(c, rest, t);
        assert [c] + t == s;
      }
      assert PrintfEncode(s) == EncodeByte(c) + rest;
    }
  }

  /** The encoding fits in a line of its own. */
  lemma {:induction false} EncodedIsPrintable(s: string)
    requires IsBytes(s)
    ensures forall i :: 0 <= i < |PrintfEncode(s)| ==> 32 <= PrintfEncode(s)[i] as int <= 126
  {
    if |s| > 0 {
      EncodedIsPrintable(s[1..]);
      assert forall i :: 0 <= i < |EncodeByte(s[0])| ==> 32 <= EncodeByte(s[0])[i] as int <= 126;
    }
  }

  // ----- the decoder on other text -----

  lemma {:induction false} PlainTextIsItself(v: string)
    requires '\\' !in v
    ensures Decode(v) == Some(v)
  {
    if |v| > 0 {
      PlainTextIsItself(v[1..]);
      assert [v[0]] + v[1..] == v;
    }
  }

  lemma {:induction false} NeverLonger(v: string)
    ensures Decode(v).Some? ==> |Decode(v).value| <= |v|
  {
    if |v| > 0 {
      if v[0] != '\\' {
        NeverLonger(v[1..]);
      } else if |v| > 1 && v[1] != 'x' {
        NeverLonger(v[2..]);
      } else if |v| > 3 {
        NeverLonger(v[4..]);
      }
    }
  }

  /** The text ends where an escape ends, with all that belongs to it. */
  predicate EndsAtBoundary(v: string) {
    if |v| == 0 then true
    else if v[0] != '\\' then EndsAtBoundary(v[1..])
    else if |v| == 1 then false
    else if v[1] != 'x' then EndsAtBoundary(v[2..])
    else |v| >= 4 && FromHex(v[2]).Some? && FromHex(v[3]).Some? && EndsAtBoundary(v[4..])
  }

  function Both(r: Option<string>, t: Option<string>): Option<string> {
    if r.None? then None else Prepend(r.value, t)
  }

  lemma {:induction false} PrependBoth(s: string, r: Option<string>, t: Option<string>)
    ensures Both(Prepend(s, r), t) == Prepend(s, Both(r, t))
  {
    if r.Some? {
      PrependTwice(s, r.value, t);
    }
  }

  lemma {:induction false} BoundaryDistributes(v: string, w: string)
    requires EndsAtBoundary(v)
    ensures Decode(v).Some? && Decode(v + w) == Both(Decode(v), Decode(w))
  {
    if |v| == 0 {
      assert v + w == w;
      PrependNothing(Decode(w));
    } else {
      var n := if v[0] != '\\' then 1 else if v[1] != 'x' then 2 else 4;
      BoundaryDistributes(v[n..], w);
      assert (v + w)[n..] == v[n..] + w;
      var head := if n == 1 then [v[0]] else if n == 2 then [Unescape(v[1])]
                  else [(16 * FromHex(v[2]).value + FromHex(v[3]).value) as char];
      PrependBoth(head, Decode(v[n..]), Decode(w));
    }
  }

  lemma {:induction false} NoBoundaryDoesNot(v: string)
    requires Decode(v).Some? && !EndsAtBoundary(v)
    ensures Decode(v + "q").None?
  {
    var n := if v[0] != '\\' then 1 else if v[1] != 'x' then 2 else 4;
    if n <= |v| {
      assert (v + "q")[n..] == v[n..] + "q";
      NoBoundaryDoesNot(v[n..]);
    }
  }

  lemma {:induction false} AddBareHex(p: string)
    requires EndsAtBoundary(p)
    ensures !EndsAtBoundary(p + "\\x")
  {
    if |p| > 0 {
      var n := if p[0] != '\\' then 1 else if p[1] != 'x' then 2 else 4;
      assert (p + "\\x")[n..] == p[n..] + "\\x";
      AddBareHex(p[n..]);
    }
  }

  /** A hexadecimal escape without any digits, at the end of a text: it is accepted, and
      decodes to nothing. */
  lemma {:induction false} BareHexIsNothing(p: string)
    requires EndsAtBoundary(p)
    ensures Decode(p).Some? && Decode(p + "\\x") == Decode(p)
    ensures !EndsAtBoundary(p + "\\x")
  {
    BoundaryDistributes(p, "\\x");
    assert Decode("\\x") == Some("");
    assert Decode(p).value + "" == Decode(p).value;
    AddBareHex(p);
  }

  /** How much of a text its first character or escape takes. */
  function HeadLength(v: string): nat
    requires |v| > 0
  {
    if v[0] != '\\' then 1 else if |v| > 1 && v[1] == 'x' then 4 else 2
  }

  lemma {:induction false} BoundaryGrows(v: string, n: nat)
    requires |v| > 0 && n == HeadLength(v) <= |v| && EndsAtBoundary(v[n..])
    requires n == 4 ==> FromHex(v[2]).Some? && FromHex(v[3]).Some?
    ensures EndsAtBoundary(v)
  {
  }

  lemma {:induction false} UnfinishedHead(v: string)
    requires Decode(v).Some? && !EndsAtBoundary(v)
    ensures |v| > 0 && (v == "\\x" || HeadLength(v) <= |v|)
    ensures v != "\\x" ==>
              && Decode(v[HeadLength(v)..]).Some? && !EndsAtBoundary(v[HeadLength(v)..])
              && (HeadLength(v) == 4 ==> FromHex(v[2]).Some? && FromHex(v[3]).Some?)
  {
  }

  /** The text ends with the letters of a hexadecimal escape, begun at a boundary. */
  predicate EndsInBareHex(v: string) {
    |v| >= 2 && v[|v| - 2] == '\\' && v[|v| - 1] == 'x' && EndsAtBoundary(v[..|v| - 2])
  }

  lemma {:induction false} BareHexGrows(v: string, n: nat)
    requires |v| > 0 && n == HeadLength(v) <= |v| && EndsInBareHex(v[n..])
    requires n == 4 ==> FromHex(v[2]).Some? && FromHex(v[3]).Some?
    ensures EndsInBareHex(v)
  {
    var rest, init := v[n..], v[..|v| - 2];
    assert init[n..] == rest[..|rest| - 2];
    assert forall i :: 0 <= i < n ==> init[i] == v[i];
    BoundaryGrows(init, n);
  }

  lemma {:induction false} UnfinishedIsBareHex(v: string)
    requires Decode(v).Some? && !EndsAtBoundary(v)
    ensures EndsInBareHex(v)
  {
    UnfinishedHead(v);
    if v != "\\x" {
      UnfinishedIsBareHex(v[HeadLength(v)..]);
      BareHexGrows(v, HeadLength(v));
    } else {
      assert v[..0] == "";
    }
  }

  /** Text that decodes ends inside an escape exactly if it ends with that escape, begun
      at a boundary. */
  lemma {:induction false} OnlyBareHexIsUnfinished(v: string)
    requires Decode(v).Some?
    ensures !EndsAtBoundary(v) <==> EndsInBareHex(v)
  {
    if !EndsAtBoundary(v) {
      UnfinishedIsBareHex(v);
    } else if EndsInBareHex(v) {
      var p := v[..|v| - 2];
      assert v == p + "\\x";
      AddBareHex(p);
    }
  }

  /** Where text decodes, it decodes independently of everything that may follow
      exactly when it ends at an escape boundary. */
  lemma {:induction false} DistributesExactlyAtBoundaries(v: string)
    requires Decode(v).Some?
    ensures EndsAtBoundary(v) <==> forall w :: Decode(v + w) == Both(Decode(v), Decode(w))
  {
    if EndsAtBoundary(v) {
      forall w ensures Decode(v + w) == Both(Decode(v), Decode(w)) {
        BoundaryDistributes(v, w);
      }
    } else {
      NoBoundaryDoesNot(v);
      PlainTextIsItself("q");
      assert Decode(v + "q") != Both(Decode(v), Decode("q"));
    }
  }

  // ----- what is refused, and what stands for itself -----

  /** The start of an escape that is none: a backslash at the end, or a hexadecimal escape
      with one digit, or with a character that is no digit. */
  predicate BadEscape(v: string) {
    || v == "\\"
    || (&& |v| >= 3 && v[0] == '\\' && v[1] == 'x'
        && (|v| == 3 || FromHex(v[2]).None? || FromHex(v[3]).None?))
  }

  lemma {:induction false} BadEscapeIsRefused(v: string, k: nat)
    requires k <= |v| && EndsAtBoundary(v[..k]) && BadEscape(v[k..])
    ensures Decode(v).None?
  {
    BoundaryDistributes(v[..k], v[k..]);
    assert v[..k] + v[k..] == v;
  }

  lemma {:induction false} RefusedHasBadEscape(v: string) returns (k: nat)
    requires Decode(v).None?
    ensures k <= |v| && EndsAtBoundary(v[..k]) && BadEscape(v[k..])
  {
    if BadEscape(v) {
      k := 0;
      assert v[0..] == v && v[..0] == "";
    } else {
      var n := HeadLength(v);
      var j := RefusedHasBadEscape(v[n..]);
      k := n + j;
      assert v[n..][j..] == v[k..] && v[..k][n..] == v[n..][..j];
      assert forall i :: 0 <= i < n ==> v[..k][i] == v[i];
      BoundaryGrows(v[..k], n);
    }
  }

  /** Text is refused exactly if it has a bad escape at a boundary. */
  lemma {:induction false} RefusedExactly(v: string)
    ensures Decode(v).None? <==> exists k :: 0 <= k <= |v| && EndsAtBoundary(v[..k]) && BadEscape(v[k..])
  {
    if Decode(v).None? {
      var k := RefusedHasBadEscape(v);
    } else if k :| 0 <= k <= |v| && EndsAtBoundary(v[..k]) && BadEscape(v[k..]) {
      BadEscapeIsRefused(v, k);
    }
  }

  lemma {:induction false} OneEscape(c: char)
    requires c != 'x'
    ensures Decode(['\\', c]) == Some([Unescape(c)])
  {
    var v := ['\\', c];
    assert v[2..] == "" && [Unescape(c)] + "" == [Unescape(c)];
  }

  /** Each escape by itself; between them, text is decoded piece by piece. */
  lemma {:induction false} EscapesDecode(c: char, hi: char, lo: char)
    requires FromHex(hi).Some? && FromHex(lo).Some?
    ensures Decode(['\\', 'e']) == Some([27 as char]) && Decode(['\\', 'n']) == Some("\n")
    ensures Decode(['\\', 'r']) == Some("\r") && Decode(['\\', 't']) == Some("\t")
    ensures c !in {'e', 'n', 'r', 't', 'x'} ==> Decode(['\\', c]) == Some([c])
    ensures Decode(['\\', 'x', hi, lo]) == Some([(16 * FromHex(hi).value + FromHex(lo).value) as char])
  {
    OneEscape('e');
    OneEscape('n');
    OneEscape('r');
    OneEscape('t');
    if c != 'x' {
      OneEscape(c);
    }
    var v, h := ['\\', 'x', hi, lo], [(16 * FromHex(hi).value + FromHex(lo).value) as char];
    assert v[4..] == "" && h + "" == h;
  }
}
