/** Hardware addresses: the six-byte value, its text and JSON forms, and the
    pattern that hostapd messages are checked against. */
module Mac {
  import opened Wrappers

  type Byte = b: int | 0 <= b < 256

  datatype MAC = MAC(b0: Byte, b1: Byte, b2: Byte, b3: Byte, b4: Byte, b5: Byte)

  // ----- hexadecimal -----

  /** The value of a hexadecimal digit of either case. */
  function FromHex(c: char): (r: Option<int>)
    ensures r.Some? ==> 0 <= r.value < 16
  {
    if '0' <= c <= '9' then Some(c as int - '0' as int)
    else if 'a' <= c <= 'f' then Some(c as int - 'a' as int + 10)
    else if 'A' <= c <= 'F' then Some(c as int - 'A' as int + 10)
    else None
  }

  function ToUpper(c: char): char {
    if 'a' <= c <= 'z' then c - 'a' + 'A' else c
  }

  function UpperDigit(n: int): (c: char)
    requires 0 <= n < 16
    ensures FromHex(c) == Some(n) && c != ':' && ToUpper(c) == c
  {
    if n < 10 then '0' + n as char else 'A' + (n - 10) as char
  }

  function UpperText(s: string): (r: string)
    ensures |r| == |s| && forall i :: 0 <= i < |s| ==> r[i] == ToUpper(s[i])
  {
    seq(|s|, i requires 0 <= i < |s| => ToUpper(s[i]))
  }

  /** Decoding of a whole hexadecimal string; None for an odd length or a
      character that is no digit. */
  function DecodeHex(s: string): (r: Option<seq<Byte>>)
  {
    if |s| == 0 then Some([])
    else if |s| == 1 then None
    else
      match (FromHex(s[0]), FromHex(s[1]), DecodeHex(s[2..]))
      case (Some(hi), Some(lo), Some(rest)) => Some([16 * hi + lo] + rest)
      case _ => None
  }

  // ----- text form -----

  /** Two upper-case digits a byte, joined by colons. */
  function Text(m: MAC): (s: string)
    ensures |s| == 17
  {
    [UpperDigit(m.b0 / 16), UpperDigit(m.b0 % 16), ':',
     UpperDigit(m.b1 / 16), UpperDigit(m.b1 % 16), ':',
     UpperDigit(m.b2 / 16), UpperDigit(m.b2 % 16), ':',
     UpperDigit(m.b3 / 16), UpperDigit(m.b3 % 16), ':',
     UpperDigit(m.b4 / 16), UpperDigit(m.b4 % 16), ':',
     UpperDigit(m.b5 / 16), UpperDigit(m.b5 % 16)]
  }

  /** Drops the first n colons of s. */
  function DropColons(s: string, n: nat): string {
    if |s| == 0 || n == 0 then s
    else if s[0] == ':' then DropColons(s[1..], n - 1)
    else [s[0]] + DropColons(s[1..], n)
  }

  /** The address that a text denotes; None where the program reports an error
      and leaves its receiver alone. */
  function Decode(s: string): Option<MAC> {
    var bytes := DecodeHex(DropColons(s, 5));
    if bytes.Some? && |bytes.value| == 6
    then
      var b := bytes.value;
      Some(MAC(b[0], b[1], b[2], b[3], b[4], b[5]))
    else None
  }

  function MarshalJSON(m: MAC): string {
    "\"" + Text(m) + "\""
  }

  function UnmarshalJSON(b: string): Option<MAC> {
    if |b| < 2 then None else Decode(b[1..|b| - 1])
  }

  // ----- the pattern of hostapd messages -----

  /** Five digit pairs with a colon each, then a sixth pair, and nothing else. */
  predicate IsMAC(v: string) {
    && |v| == 17
    && forall i :: 0 <= i < 17 ==> if i % 3 == 2 then v[i] == ':' else FromHex(v[i]).Some?
  }

  /** k colon-terminated digit pairs and a last pair. */
  predicate Pairs(v: string, k: nat) {
    && |v| == 3 * k + 2
    && forall i :: 0 <= i < |v| ==> if i % 3 == 2 then v[i] == ':' else FromHex(v[i]).Some?
  }

  function PairValue(x: char, y: char): Byte
    requires FromHex(x).Some? && FromHex(y).Some?
  {
    16 * FromHex(x).value + FromHex(y).value
  }

  lemma {:induction false} PairsAfterFirst(v: string, k: nat)
    requires Pairs(v, k) && k > 0
    ensures Pairs(v[3..], k - 1)
  {
    var rest := v[3..];
    forall i | 0 <= i < |rest|
      ensures if i % 3 == 2 then rest[i] == ':' else FromHex(rest[i]).Some?
    {
      assert rest[i] == v[i + 3];
    }
  }

  lemma {:induction false} DropColonsPair(x: char, y: char, rest: string, n: nat)
    requires x != ':' && y != ':'
    ensures DropColons([x, y, ':'] + rest, n + 1) == [x, y] + DropColons(rest, n)
  {
    var s := [x, y, ':'] + rest;
    var s1 := [y, ':'] + rest;
    var s2 := [':'] + rest;
    assert s[1..] == s1 && s1[1..] == s2 && s2[1..] == rest;
    assert DropColons(s2, n + 1) == DropColons(rest, n);
    assert DropColons(s1, n + 1) == [y] + DropColons(rest, n);
    assert DropColons(s, n + 1) == [x] + ([y] + DropColons(rest, n));
  }

  lemma {:induction false} DecodeHexPair(x: char, y: char, rest: string)
    requires FromHex(x).Some? && FromHex(y).Some?
    ensures DecodeHex([x, y] + rest) ==
            match DecodeHex(rest)
            case Some(b) => Some([PairValue(x, y)] + b)
            case None => None
  {
    assert ([x, y] + rest)[2..] == rest;
  }

  lemma {:induction false} PairsOfRest(v: string, k: nat, b: seq<Byte>, c: seq<Byte>)
    requires Pairs(v, k) && k > 0 && Pairs(v[3..], k - 1)
    requires |c| == k && forall j :: 0 <= j < k ==> c[j] == PairValue(v[3..][3 * j], v[3..][3 * j + 1])
    requires b == [PairValue(v[0], v[1])] + c
    ensures |b| == k + 1 && forall j :: 0 <= j <= k ==> b[j] == PairValue(v[3 * j], v[3 * j + 1])
  {
    forall j | 0 <= j <= k ensures b[j] == PairValue(v[3 * j], v[3 * j + 1]) {
      if j > 0 {
        var i := j - 1;
        assert c[i] == PairValue(v[3..][3 * i], v[3..][3 * i + 1]);
        assert v[3..][3 * i] == v[3 * j] && v[3..][3 * i + 1] == v[3 * j + 1];
      }
    }
  }

  /** Dropping k colons from k + 1 pairs leaves text that decodes pair by pair. */
  lemma {:induction false} DecodePairs(v: string, k: nat)
    requires Pairs(v, k)
    ensures var b := DecodeHex(DropColons(v, k));
            && b.Some? && |b.value| == k + 1
            && forall j :: 0 <= j <= k ==> b.value[j] == PairValue(v[3 * j], v[3 * j + 1])
  {
    if k == 0 {
      assert v == [v[0], v[1]] + [];
      DecodeHexPair(v[0], v[1], []);
    } else {
      var rest := v[3..];
      assert v == [v[0], v[1], ':'] + rest;
      DropColonsPair(v[0], v[1], rest, k - 1);
      PairsAfterFirst(v, k);
      DecodePairs(rest, k - 1);
      DecodeHexPair(v[0], v[1], DropColons(rest, k - 1));
      var b, c := DecodeHex(DropColons(v, k)).value, DecodeHex(DropColons(rest, k - 1)).value;
      PairsOfRest(v, k, b, c);
    }
  }

  /** Every text that matches the pattern decodes, byte by byte. */
  lemma {:induction false} DecodeOfPattern(v: string)
    requires IsMAC(v)
    ensures Decode(v) == Some(MAC(PairValue(v[0], v[1]), PairValue(v[3], v[4]), PairValue(v[6], v[7]),
                                  PairValue(v[9], v[10]), PairValue(v[12], v[13]), PairValue(v[15], v[16])))
  {
    DecodePairs(v, 5);
    var b := DecodeHex(DropColons(v, 5)).value;
    assert b[0] == PairValue(v[3 * 0], v[3 * 0 + 1]);
    assert b[1] == PairValue(v[3 * 1], v[3 * 1 + 1]);
    assert b[2] == PairValue(v[3 * 2], v[3 * 2 + 1]);
    assert b[3] == PairValue(v[3 * 3], v[3 * 3 + 1]);
    assert b[4] == PairValue(v[3 * 4], v[3 * 4 + 1]);
    assert b[5] == PairValue(v[3 * 5], v[3 * 5 + 1]);
  }

  lemma {:induction false} TextMatchesPattern(m: MAC)
    ensures IsMAC(Text(m))
  {
    var t := Text(m);
    forall i | 0 <= i < 17 ensures if i % 3 == 2 then t[i] == ':' else FromHex(t[i]).Some? {
      if i % 3 == 2 {
        assert i == 2 || i == 5 || i == 8 || i == 11 || i == 14;
      } else {
        assert i in {0, 1, 3, 4, 6, 7, 9, 10, 12, 13, 15, 16};
      }
    }
  }

  /** Decoding undoes printing, for every address. */
  lemma {:induction false} DecodeText(m: MAC)
    ensures Decode(Text(m)) == Some(m)
  {
    TextMatchesPattern(m);
    DecodeOfPattern(Text(m));
  }

  lemma {:induction false} PairText(x: char, y: char)
    requires FromHex(x).Some? && FromHex(y).Some?
    ensures UpperDigit(PairValue(x, y) / 16) == ToUpper(x) && UpperDigit(PairValue(x, y) % 16) == ToUpper(y)
  {
    assert PairValue(x, y) / 16 == FromHex(x).value && PairValue(x, y) % 16 == FromHex(y).value;
  }

  /** Printing a decoded pattern gives the text back in upper case: decoding
      identifies exactly the texts that differ in the case of their digits. */
  lemma {:induction false} TextOfDecoded(v: string)
    requires IsMAC(v)
    ensures Decode(v).Some? && Text(Decode(v).value) == UpperText(v)
  {
    DecodeOfPattern(v);
    PairText(v[0], v[1]);
    PairText(v[3], v[4]);
    PairText(v[6], v[7]);
    PairText(v[9], v[10]);
    PairText(v[12], v[13]);
    PairText(v[15], v[16]);
    assert ToUpper(':') == ':';
  }

  lemma {:induction false} TextIsUpper(m: MAC)
    ensures IsMAC(Text(m)) && UpperText(Text(m)) == Text(m)
  {
    TextMatchesPattern(m);
    TextOfDecoded(Text(m));
    DecodeText(m);
  }

  lemma {:induction false} TextInjective(m: MAC, n: MAC)
    ensures Text(m) == Text(n) ==> m == n
  {
    DecodeText(m);
    DecodeText(n);
  }

  /** The JSON pair round-trips, for every address. */
  lemma {:induction false} JSONRoundTrip(m: MAC)
    ensures UnmarshalJSON(MarshalJSON(m)) == Some(m)
    ensures var b := MarshalJSON(m);
            |b| == 19 && b[0] == '"' && b[18] == '"' && IsMAC(b[1..18]) && UpperText(b[1..18]) == b[1..18]
  {
    var b := MarshalJSON(m);
    assert b[1..|b| - 1] == Text(m);
    DecodeText(m);
    TextIsUpper(m);
  }

  // ----- what is refused -----

  lemma {:induction false} DecodeHexExactly(s: string)
    ensures DecodeHex(s).Some? <==> |s| % 2 == 0 && forall i :: 0 <= i < |s| ==> FromHex(s[i]).Some?
    ensures DecodeHex(s).Some? ==> 2 * |DecodeHex(s).value| == |s|
  {
    if |s| >= 2 {
      var rest := s[2..];
      DecodeHexExactly(rest);
      assert forall i :: 0 <= i < |rest| ==> rest[i] == s[i + 2];
      assert forall i :: 2 <= i < |s| ==> s[i] == rest[i - 2];
    }
  }

  /** A text is an address exactly if it is twelve digits once its first five colons are
      gone, wherever these are. */
  lemma {:induction false} DecodeExactly(s: string)
    ensures var d := DropColons(s, 5);
            Decode(s).Some? <==> |d| == 12 && forall i :: 0 <= i < 12 ==> FromHex(d[i]).Some?
  {
    DecodeHexExactly(DropColons(s, 5));
  }

  function Colons(s: string): nat {
    if |s| == 0 then 0 else Colons(s[1..]) + if s[0] == ':' then 1 else 0
  }

  lemma {:induction false} DropColonsCounts(s: string, n: nat)
    ensures Colons(DropColons(s, n)) == if Colons(s) <= n then 0 else Colons(s) - n
    ensures |DropColons(s, n)| - Colons(DropColons(s, n)) == |s| - Colons(s)
  {
    if |s| > 0 && n > 0 {
      if s[0] == ':' {
        DropColonsCounts(s[1..], n - 1);
      } else {
        DropColonsCounts(s[1..], n);
        assert DropColons(s, n)[1..] == DropColons(s[1..], n);
      }
    }
  }

  lemma {:induction false} DigitsHaveNoColon(s: string)
    requires forall i :: 0 <= i < |s| ==> FromHex(s[i]).Some?
    ensures Colons(s) == 0
  {
    if |s| > 0 {
      assert FromHex(s[0]).Some?;
      DigitsHaveNoColon(s[1..]);
    }
  }

  /** So an address has at most five colons, and twelve other characters: seven bytes are
      refused, and five, and a sixth colon. */
  lemma {:induction false} DecodedIsSixBytes(s: string)
    requires Decode(s).Some?
    ensures Colons(s) <= 5 && |s| - Colons(s) == 12
  {
    DecodeExactly(s);
    DropColonsCounts(s, 5);
    DigitsHaveNoColon(DropColons(s, 5));
  }

  /** JSON texts are read between their first and last character, whatever these are. */
  lemma {:induction false} UnmarshalExactly(s: string, a: char, b: char)
    ensures UnmarshalJSON([a] + s + [b]) == Decode(s)
    ensures UnmarshalJSON("").None? && UnmarshalJSON([a]).None?
  {
    var t := [a] + s + [b];
    assert t[1..|t| - 1] == s;
  }
}
