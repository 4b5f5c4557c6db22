/** Base64 with the standard alphabet and padding: section 4 of RFC 4648. */
module Base64 {
  import opened Prelude

  /** The character of one 6-bit value: Table 1 of RFC 4648. */
  function Symbol(v: nat): char
    requires v < 64
  {
    if v < 26 then ('A' as int + v) as char
    else if v < 52 then ('a' as int + v - 26) as char
    else if v < 62 then ('0' as int + v - 52) as char
    else if v == 62 then '+' else '/'
  }

  function Value(c: char): Option<nat> {
    if 'A' <= c <= 'Z' then Some(c as int - 'A' as int)
    else if 'a' <= c <= 'z' then Some(c as int - 'a' as int + 26)
    else if '0' <= c <= '9' then Some(c as int - '0' as int + 52)
    else if c == '+' then Some(62)
    else if c == '/' then Some(63)
    else None
  }

  lemma ValueOfSymbol(v: nat)
    requires v < 64
    ensures Value(Symbol(v)) == Some(v) && Symbol(v) != '='
  {}

  /** `base64.b64encode(data).decode("ascii")` */
  function Encode(data: bytes): string {
    if data == [] then ""
    else
      var a := data[0] as nat;
      if |data| == 1 then [Symbol(a / 4), Symbol(a % 4 * 16), '=', '=']
      else
        var b := data[1] as nat;
        if |data| == 2 then [Symbol(a / 4), Symbol(a % 4 * 16 + b / 16), Symbol(b % 16 * 4), '=']
        else
          var c := data[2] as nat;
          [Symbol(a / 4), Symbol(a % 4 * 16 + b / 16), Symbol(b % 16 * 4 + c / 64), Symbol(c % 64)] + Encode(data[3..])
  }

  /**
   * `base64.b64decode(text, validate=True)`: whole groups of four symbols, `=` only to fill the last group.
   * The unused low bits of a short last group are ignored.
   */
  function Decode(text: string): Option<bytes> {
    if text == "" then Some([])
    else if |text| < 4 || Value(text[0]).None? || Value(text[1]).None? then None
    else
      var p, q := Value(text[0]).value, Value(text[1]).value;
      if text[2..] == "==" then Some([First(p, q)])
      else if Value(text[2]).None? then None
      else
        var r := Value(text[2]).value;
        if text[3..] == "=" then Some([First(p, q), Second(q, r)])
        else if Value(text[3]).None? || Decode(text[4..]).None? then None
        else Some([First(p, q), Second(q, r), Third(r, Value(text[3]).value)] + Decode(text[4..]).value)
  }

  function First(p: nat, q: nat): byte { ((p * 4 + q / 16) % 256) as byte }

  function Second(q: nat, r: nat): byte { ((q % 16 * 16 + r / 4) % 256) as byte }

  function Third(r: nat, s: nat): byte { ((r % 4 * 64 + s) % 256) as byte }

  /** The 24 bits of three bytes, cut into four symbols, come back as the same three bytes. */
  lemma GroupRoundTrip(a: nat, b: nat, c: nat)
    requires a < 256 && b < 256 && c < 256
    ensures First(a / 4, a % 4 * 16 + b / 16) == a as byte
    ensures Second(a % 4 * 16 + b / 16, b % 16 * 4 + c / 64) == b as byte
    ensures Third(b % 16 * 4 + c / 64, c % 64) == c as byte
  {
    assert (a % 4 * 16 + b / 16) / 16 == a % 4 && (a % 4 * 16 + b / 16) % 16 == b / 16;
    assert (b % 16 * 4 + c / 64) / 4 == b % 16 && (b % 16 * 4 + c / 64) % 4 == c / 64;
  }

  lemma DecodeGroup(p: nat, q: nat, r: nat, s: nat, rest: string)
    requires p < 64 && q < 64 && r < 64 && s < 64 && Decode(rest).Some?
    ensures Decode([Symbol(p), Symbol(q), Symbol(r), Symbol(s)] + rest)
         == Some([First(p, q), Second(q, r), Third(r, s)] + Decode(rest).value)
    ensures Decode([Symbol(p), Symbol(q), Symbol(r), '=']) == Some([First(p, q), Second(q, r)])
    ensures Decode([Symbol(p), Symbol(q), '=', '=']) == Some([First(p, q)])
  {
    ValueOfSymbol(p);
    ValueOfSymbol(q);
    ValueOfSymbol(r);
    ValueOfSymbol(s);
    var text := [Symbol(p), Symbol(q), Symbol(r), Symbol(s)] + rest;
    assert text[2..][0] == Symbol(r) && text[3..][0] == Symbol(s) && text[4..] == rest;
    assert [Symbol(p), Symbol(q), Symbol(r), '='][3..] == "=";
    assert [Symbol(p), Symbol(q), Symbol(r), '='][2..][0] == Symbol(r);
    assert [Symbol(p), Symbol(q), '=', '='][2..] == "==";
  }

  lemma OneByte(a: byte)
    ensures Decode(Encode([a])) == Some([a])
  {
    var x := a as nat;
    assert Encode([a]) == [Symbol(x / 4), Symbol(x % 4 * 16), '=', '='];
    GroupRoundTrip(x, 0, 0);
    DecodeGroup(x / 4, x % 4 * 16, 0, 0, "");
  }

  lemma TwoBytes(a: byte, b: byte)
    ensures Decode(Encode([a, b])) == Some([a, b])
  {
    var x, y := a as nat, b as nat;
    assert Encode([a, b]) == [Symbol(x / 4), Symbol(x % 4 * 16 + y / 16), Symbol(y % 16 * 4), '='];
    GroupRoundTrip(x, y, 0);
    DecodeGroup(x / 4, x % 4 * 16 + y / 16, y % 16 * 4, 0, "");
  }

  lemma WholeGroup(a: byte, b: byte, c: byte, rest: bytes)
    requires Decode(Encode(rest)) == Some(rest)
    ensures Decode(Encode([a, b, c] + rest)) == Some([a, b, c] + rest)
  {
    var x, y, z := a as nat, b as nat, c as nat;
    GroupRoundTrip(x, y, z);
    DecodeGroup(x / 4, x % 4 * 16 + y / 16, y % 16 * 4 + z / 64, z % 64, Encode(rest));
    var data := [a, b, c] + rest;
    assert data[0] == a && data[1] == b && data[2] == c && data[3..] == rest;
  }

  /** Decoding undoes encoding, for every byte string. */
  lemma {:induction false} RoundTrip(data: bytes)
    ensures Decode(Encode(data)) == Some(data)
  {
    if |data| > 2 {
      RoundTrip(data[3..]);
      WholeGroup(data[0], data[1], data[2], data[3..]);
      assert data == [data[0], data[1], data[2]] + data[3..];
    } else if |data| == 2 {
      TwoBytes(data[0], data[1]);
      assert data == [data[0], data[1]];
    } else if |data| == 1 {
      OneByte(data[0]);
      assert data == [data[0]];
    }
  }

  /** Test vectors of section 10 of RFC 4648, for "f", "fo", "foo" and "foob", and the two symbols they leave out. */
  lemma TestVectors()
    ensures Encode([102]) == "Zg==" && Encode([102, 111]) == "Zm8="
    ensures Encode([102, 111, 111]) == "Zm9v" && Encode([102, 111, 111, 98]) == "Zm9vYg=="
    ensures Encode([251, 239, 190]) == "++++" && Encode([255, 255, 255]) == "////"
  {
    assert Encode([102, 111, 111]) == "Zm9v" + Encode([]);
    assert [102 as byte, 111, 111, 98][3..] == [98];
    assert Encode([251, 239, 190]) == "++++" + Encode([]);
    assert Encode([255, 255, 255]) == "////" + Encode([]);
  }

  /** A text that decodes is made of whole groups of symbols; only the last two characters may be `=`. */
  lemma {:induction false} OnlyGroupsDecode(text: string)
    requires Decode(text).Some?
    ensures |text| % 4 == 0
    ensures forall i | 0 <= i < |text| :: Value(text[i]).Some? || (text[i] == '=' && i >= |text| - 2)
  {
    if |text| > 4 {
      FirstOfMany(text);
      OnlyGroupsDecode(text[4..]);
      assert forall i | 4 <= i < |text| :: text[i] == text[4..][i - 4];
    } else if |text| == 4 {
      LastGroup(text);
    }
  }

  lemma LastGroup(text: string)
    requires |text| == 4 && Decode(text).Some?
    ensures Value(text[0]).Some? && Value(text[1]).Some?
    ensures (Value(text[2]).Some? || text[2] == '=') && (Value(text[3]).Some? || text[3] == '=')
  {
    assert text[3..] == [text[3]] && text[2..] == [text[2], text[3]];
  }

  lemma FirstOfMany(text: string)
    requires |text| > 4 && Decode(text).Some?
    ensures Decode(text[4..]).Some?
    ensures Value(text[0]).Some? && Value(text[1]).Some? && Value(text[2]).Some? && Value(text[3]).Some?
  {
    assert |text[2..]| > 2 && |text[3..]| > 1;
  }

  /** Four characters for every three bytes begun, and only ASCII ones. */
  lemma {:induction false} EncodedShape(data: bytes)
    ensures |Encode(data)| == (|data| + 2) / 3 * 4
    ensures forall i | 0 <= i < |Encode(data)| :: Encode(data)[i] < '\U{80}'
  {
    if |data| > 2 {
      EncodedShape(data[3..]);
    }
  }
}
