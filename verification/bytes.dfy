/**
 * Bytes, JavaScript's 16-bit string code units, and the implicit number
 * conversions the original relies on (`String.fromCharCode`, `Uint8Array`,
 * `Array.prototype.toString`).
 */
module Bytes {

  type Byte = b: int | 0 <= b < 0x100
  type Bytes = seq<Byte>

  /** One UTF-16 code unit of a JavaScript string. */
  type CodeUnit = u: int | 0 <= u < 0x1_0000

  /** The bytes of `parts` laid end to end, in order, as `new Blob(parts)` does. */
  function Flatten(parts: seq<Bytes>): Bytes
  {
    if |parts| == 0 then [] else Flatten(parts[..|parts| - 1]) + parts[|parts| - 1]
  }

  /** Where block `i` starts inside `Flatten(parts)`. */
  function Offset(parts: seq<Bytes>, i: nat): nat
    requires i <= |parts|
  {
    |Flatten(parts[..i])|
  }

  lemma {:induction false} FlattenConcat(a: seq<Bytes>, b: seq<Bytes>)
    ensures Flatten(a + b) == Flatten(a) + Flatten(b)
    decreases |b|
  {
    if |b| == 0 {
      assert a + b == a;
    } else {
      var last := b[|b| - 1];
      assert (a + b)[..|a + b| - 1] == a + b[..|b| - 1];
      FlattenConcat(a, b[..|b| - 1]);
      assert Flatten(a + b) == Flatten(a + b[..|b| - 1]) + last;
    }
  }

  /** Nothing is reordered or dropped: block `i` sits at `Offset(parts, i)`, intact. */
  lemma {:induction false} FlattenSlice(parts: seq<Bytes>, i: nat)
    requires i < |parts|
    ensures Offset(parts, i) + |parts[i]| <= |Flatten(parts)|
    ensures Flatten(parts)[Offset(parts, i)..Offset(parts, i) + |parts[i]|] == parts[i]
  {
    assert parts == parts[..i + 1] + parts[i + 1..];
    FlattenConcat(parts[..i + 1], parts[i + 1..]);
    assert parts[..i + 1][..i] == parts[..i];
    var pre := Flatten(parts[..i]);
    assert Flatten(parts[..i + 1]) == pre + parts[i];
    assert Flatten(parts) == pre + parts[i] + Flatten(parts[i + 1..]);
  }

  /** The total length is the sum of the block lengths. */
  function TotalLength(parts: seq<Bytes>): nat
  {
    if |parts| == 0 then 0 else TotalLength(parts[..|parts| - 1]) + |parts[|parts| - 1]|
  }

  lemma {:induction false} FlattenLength(parts: seq<Bytes>)
    ensures |Flatten(parts)| == TotalLength(parts)
  {
    if |parts| > 0 {
      FlattenLength(parts[..|parts| - 1]);
    }
  }

  /** `String.fromCharCode(x)` keeps `x` modulo 2^16 (ToUint16). */
  function FromCharCode(x: int): CodeUnit
  {
    x % 0x1_0000
  }

  /** The string built by appending `String.fromCharCode(a[i])` for each element. */
  function BinaryString(a: seq<int>): (r: seq<CodeUnit>)
    ensures |r| == |a|
    ensures forall i :: 0 <= i < |a| && 0 <= a[i] < 0x1_0000 ==> r[i] == a[i]
  {
    seq(|a|, i requires 0 <= i < |a| => FromCharCode(a[i]))
  }

  /** `new Uint8Array(array)` keeps each element modulo 2^8 (ToUint8). */
  function Uint8Array(a: seq<int>): (r: Bytes)
    ensures |r| == |a|
    ensures forall i :: 0 <= i < |a| && 0 <= a[i] < 0x100 ==> r[i] == a[i]
  {
    seq(|a|, i requires 0 <= i < |a| => a[i] % 0x100)
  }

  predicate AllBytes(a: seq<int>)
  {
    forall i :: 0 <= i < |a| ==> 0 <= a[i] < 0x100
  }

  function DigitChar(d: int): char
    requires 0 <= d < 10
  {
    ('0' as int + d) as char
  }

  /** The decimal text of an integer, as `Number.prototype.toString` prints it. */
  function Decimal(x: int): (r: string)
    ensures forall c :: c in r ==> c == '-' || '0' <= c <= '9'
    decreases if x < 0 then 1 - x else x
  {
    if x < 0 then "-" + Decimal(-x)
    else if x < 10 then [DigitChar(x)]
    else Decimal(x / 10) + [DigitChar(x % 10)]
  }

  /** `String(array)`: the elements' decimal texts joined by commas. */
  function JoinNumbers(a: seq<int>): (r: string)
    ensures |a| >= 2 ==> ',' in r
  {
    if |a| == 0 then ""
    else if |a| == 1 then Decimal(a[0])
    else Decimal(a[0]) + "," + JoinNumbers(a[1..])
  }

  /**
   * The shapes a stored binary field takes: absent (`undefined`), a base64
   * string, or an array of numbers.
   */
  datatype Field = Absent | Str(text: string) | Arr(elems: seq<int>)

  /** The string a Web IDL `DOMString` argument such as `atob`'s receives. */
  function ToDomString(f: Field): string
  {
    match f
    case Absent => "undefined"
    case Str(s) => s
    case Arr(a) => JoinNumbers(a)
  }
}
