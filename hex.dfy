/**
 * The hex view of a file's contents (convertBinaryToHex in lib/main.js): every byte
 * becomes two lower-case hexadecimal digits, zero-padded, followed by one space;
 * the cells are joined by a left fold starting from the empty string.
 */
module HexView {

  import opened Wrappers

  /** One hexadecimal digit as Number.prototype.toString(16) writes it: lower case. */
  function Digit(d: nat): (c: char)
    requires d < 16
    ensures '0' <= c <= '9' || 'a' <= c <= 'f'
  {
    if d < 10 then ('0' as int + d) as char else ('a' as int + d - 10) as char
  }

  /** byte.toString(16).padStart(2, '0') + ' ' */
  function Cell(b: bv8): (c: string)
    ensures |c| == 3 && c[2] == ' '
  {
    [Digit(b as int / 16), Digit(b as int % 16), ' ']
  }

  /** The reduce over the byte array, with the last byte appended last. */
  function ToHex(bytes: seq<bv8>): (s: string)
    ensures |s| == 3 * |bytes|
  {
    if |bytes| == 0 then "" else ToHex(bytes[..|bytes| - 1]) + Cell(bytes[|bytes| - 1])
  }

  /** The value of one lower-case hexadecimal digit. */
  function DigitValue(c: char): (r: Option<nat>)
    ensures r.Some? <==> '0' <= c <= '9' || 'a' <= c <= 'f'
    ensures r.Some? ==> r.value < 16 && Digit(r.value) == c
  {
    if '0' <= c <= '9' then Some(c as int - '0' as int)
    else if 'a' <= c <= 'f' then Some(c as int - 'a' as int + 10)
    else None
  }

  /** Reads a hex view back: groups of two digits and a space, nothing else. */
  function ParseHex(s: string): (r: Option<seq<bv8>>)
    ensures r.Some? ==> |s| == 3 * |r.value|
  {
    if |s| == 0 then Some([])
    else if |s| < 3 || s[2] != ' ' then None
    else match (DigitValue(s[0]), DigitValue(s[1]), ParseHex(s[3..]))
      case (Some(hi), Some(lo), Some(rest)) => Some([(hi * 16 + lo) as bv8] + rest)
      case _ => None
  }

  /** The fold distributes over concatenation of byte sequences. */
  lemma {:induction false} ToHexAppend(a: seq<bv8>, b: seq<bv8>)
    ensures ToHex(a + b) == ToHex(a) + ToHex(b)
    decreases |b|
  {
    if |b| == 0 {
      assert a + b == a;
    } else {
      var b' := b[..|b| - 1];
      assert (a + b)[..|a + b| - 1] == a + b';
      assert (a + b)[|a + b| - 1] == b[|b| - 1];
      ToHexAppend(a, b');
    }
  }

  lemma ToHexOne(b: bv8)
    ensures ToHex([b]) == Cell(b)
  {
    assert [b][..0] == [];
  }

  /** Byte k of the input owns characters 3k, 3k+1 and 3k+2 of the view. */
  lemma ToHexAt(bytes: seq<bv8>, k: nat)
    requires k < |bytes|
    ensures ToHex(bytes)[3 * k..3 * k + 3] == Cell(bytes[k])
  {
    ToHexSplit(bytes, k);
    var x, c, y := ToHex(bytes[..k]), Cell(bytes[k]), ToHex(bytes[k + 1..]);
    MiddleSlice(x, c, y);
    assert |x| == 3 * k;
  }

  lemma ToHexSplit(bytes: seq<bv8>, k: nat)
    requires k < |bytes|
    ensures ToHex(bytes) == ToHex(bytes[..k]) + (Cell(bytes[k]) + ToHex(bytes[k + 1..]))
  {
    var pre, b, post := bytes[..k], bytes[k], bytes[k + 1..];
    calc {
      ToHex(bytes);
      { assert bytes == pre + ([b] + post); }
      ToHex(pre + ([b] + post));
      { ToHexAppend(pre, [b] + post); }
      ToHex(pre) + ToHex([b] + post);
      { ToHexAppend([b], post); ToHexOne(b); }
      ToHex(pre) + (Cell(b) + ToHex(post));
    }
  }

  lemma MiddleSlice(x: string, c: string, y: string)
    ensures (x + (c + y))[|x|..|x| + |c|] == c
  {
    var z := x + (c + y);
    forall i | 0 <= i < |c|
      ensures z[|x|..|x| + |c|][i] == c[i]
    {
      assert z[|x| + i] == c[i];
    }
  }

  lemma DigitRoundTrip(d: nat)
    requires d < 16
    ensures DigitValue(Digit(d)) == Some(d)
  {
  }

  lemma CellRoundTrip(b: bv8)
    ensures var c := Cell(b);
      && DigitValue(c[0]) == Some(b as int / 16) && DigitValue(c[1]) == Some(b as int % 16)
      && ((b as int / 16) * 16 + b as int % 16) as bv8 == b
  {
    var n := b as int;
    DigitRoundTrip(n / 16);
    DigitRoundTrip(n % 16);
    assert (n / 16) * 16 + n % 16 == n;
  }

  /** Reading the hex view back gives the bytes it was made from. */
  lemma {:induction false} ParseToHex(bytes: seq<bv8>)
    ensures ParseHex(ToHex(bytes)) == Some(bytes)
    decreases |bytes|
  {
    if |bytes| > 0 {
      var s := ToHex(bytes);
      var rest := bytes[1..];
      assert bytes == [bytes[0]] + rest;
      ToHexAppend([bytes[0]], rest);
      ToHexOne(bytes[0]);
      assert s == Cell(bytes[0]) + ToHex(rest);
      assert s[3..] == ToHex(rest);
      ParseToHex(rest);
      CellRoundTrip(bytes[0]);
    }
  }

  lemma CellScenario()
    ensures Cell(0x00) == "00 " && Cell(0x0f) == "0f " && Cell(0xa5) == "a5 " && Cell(0xff) == "ff "
  {
  }

  /** The view of 0x00 0x0f 0xa5 0xff. */
  lemma HexScenario()
    ensures ToHex([0x00, 0x0f, 0xa5, 0xff]) == "00 0f a5 ff "
  {
    var bytes: seq<bv8> := [0x00, 0x0f, 0xa5, 0xff];
    assert bytes == [0x00] + ([0x0f] + ([0xa5] + [0xff]));
    ToHexAppend([0x00], [0x0f] + ([0xa5] + [0xff]));
    ToHexAppend([0x0f], [0xa5] + [0xff]);
    ToHexAppend([0xa5], [0xff]);
    ToHexOne(0x00);
    ToHexOne(0x0f);
    ToHexOne(0xa5);
    ToHexOne(0xff);
    CellScenario();
  }
}
