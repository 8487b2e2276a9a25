/** The flat name buffer of script objects and container headers: each name behind a
    two-byte header, wide names aligned to two bytes. */
module NameBatch {
  import opened Zen
  import opened Bytes

  /** A name as UTF-16 code units. */
  type Unit = u: nat | u < 0x10000
  type Name = seq<Unit>

  predicate IsAscii(name: Name) {
    forall i :: 0 <= i < |name| ==> name[i] < 0x80
  }

  const LENGTH_LIMIT := 0x8000

  /** The length as a big-endian 16-bit number, offset by the least 16-bit number for
      wide names. */
  function Header(name: Name): (r: seq<Byte>)
    requires |name| < LENGTH_LIMIT
    ensures |r| == 2
  {
    var n := if IsAscii(name) then |name| else |name| + LENGTH_LIMIT;
    [n / 256, n % 256]
  }

  function NarrowBytes(name: Name): (r: seq<Byte>)
    requires IsAscii(name)
    ensures |r| == |name|
  {
    seq(|name|, i requires 0 <= i < |name| => name[i])
  }

  function WideBytes(name: Name): (r: seq<Byte>)
    ensures |r| == 2 * |name|
  {
    if name == [] then [] else [name[0] % 256, name[0] / 256] + WideBytes(name[1..])
  }

  function Padding(position: nat): seq<Byte> {
    if position % 2 != 0 then [0] else []
  }

  /** A name written at a position. */
  function Encode(position: nat, name: Name): seq<Byte>
    requires |name| < LENGTH_LIMIT
  {
    Header(name) + if IsAscii(name) then NarrowBytes(name) else Padding(position + 2) + WideBytes(name)
  }

  lemma {:induction false} WideUnit(name: Name, k: nat)
    requires k < |name|
    ensures WideBytes(name)[2 * k] == name[k] % 256 && WideBytes(name)[2 * k + 1] == name[k] / 256
  {
    if k > 0 {
      WideUnit(name[1..], k - 1);
      assert WideBytes(name)[2..] == WideBytes(name[1..]);
    }
  }

  /** Byte by byte: a name of characters below 0x80 is its length in two bytes, high byte
      first, and one byte a character. Any other name has 0x8000 added to its length, and
      two bytes a unit, low byte first, from the next even position on. */
  lemma {:induction false} EncodedName(position: nat, name: Name, k: nat)
    requires |name| < LENGTH_LIMIT
    ensures var s := Encode(position, name);
            if forall i :: 0 <= i < |name| ==> name[i] < 0x80 then
              && |s| == 2 + |name| && s[0] == |name| / 256 && s[1] == |name| % 256
              && (k < |name| ==> s[2 + k] == name[k])
            else
              var start := if position % 2 == 0 then 2 else 3;
              && |s| == start + 2 * |name| && s[0] == 0x80 + |name| / 256 && s[1] == |name| % 256
              && (position % 2 != 0 ==> s[2] == 0)
              && (k < |name| ==> s[start + 2 * k] == name[k] % 256 && s[start + 2 * k + 1] == name[k] / 256)
  {
    if !IsAscii(name) && k < |name| {
      WideUnit(name, k);
      var front := Header(name) + Padding(position + 2);
      assert Encode(position, name) == front + WideBytes(name);
    }
  }

  ghost predicate Writable(names: seq<Name>) {
    forall i :: 0 <= i < |names| ==> |names[i]| < LENGTH_LIMIT
  }

  ghost function EncodeAll(names: seq<Name>, n: nat): seq<Byte>
    requires Writable(names) && n <= |names|
  {
    if n == 0 then []
    else
      var front := EncodeAll(names, n - 1);
      front + Encode(|front|, names[n - 1])
  }

  method WriteNameBatchParts(names: seq<Name>) returns (buffer: seq<Byte>)
    requires Writable(names)
    ensures buffer == EncodeAll(names, |names|)
  {
    buffer := [];
    for i := 0 to |names|
      invariant buffer == EncodeAll(names, i)
    {
      var name := names[i];
      ghost var before := buffer;
      buffer := buffer + Header(name);
      if IsAscii(name) {
        buffer := buffer + NarrowBytes(name);
      } else {
        if |buffer| % 2 != 0 {
          buffer := buffer + [0];
        }
        buffer := buffer + WideBytes(name);
      }
      assert buffer == before + Encode(|before|, name);
    }
  }

  // ------------------------------------------------------------------ reading

  /** Readers stop at the first zero. */
  function Truncate(name: Name): Name {
    if name == [] || name[0] == 0 then [] else [name[0]] + Truncate(name[1..])
  }

  /** What is read of a name is everything before its first zero. */
  lemma {:induction false} TruncatedAtZero(name: Name)
    ensures Truncate(name) <= name && 0 !in Truncate(name)
    ensures |Truncate(name)| < |name| ==> name[|Truncate(name)|] == 0
  {
    if name != [] && name[0] != 0 {
      TruncatedAtZero(name[1..]);
    }
  }

  /** A name survives exactly when it contains no zero. */
  lemma {:induction false} TruncateKeeps(name: Name)
    ensures Truncate(name) == name <==> 0 !in name
  {
    if name != [] && name[0] != 0 {
      TruncateKeeps(name[1..]);
      assert name == [name[0]] + name[1..];
    }
  }

  /** A 16-bit number from its low and high byte. */
  function Combine(low: int, high: int): int {
    low + 256 * high
  }

  function ReadWide(bytes: seq<Byte>): Name
    requires |bytes| % 2 == 0
  {
    if bytes == [] then [] else [Combine(bytes[0], bytes[1])] + ReadWide(bytes[2..])
  }

  lemma {:induction false} WideRoundTrip(name: Name)
    ensures ReadWide(WideBytes(name)) == name
  {
    if name != [] {
      WideRoundTrip(name[1..]);
      assert WideBytes(name)[2..] == WideBytes(name[1..]);
      assert name == [name[0]] + name[1..];
    }
  }

  /** Reads one name; None is a buffer that ends too early. */
  function ReadName(buffer: seq<Byte>, position: nat): (r: Option<(Name, nat)>)
    ensures r.Some? ==> position < r.value.1 <= |buffer|
  {
    if position + 2 > |buffer| then None
    else
      var n := Combine(buffer[position + 1], buffer[position]);
      if n < LENGTH_LIMIT then
        var end := position + 2 + n;
        if end > |buffer| then None else Some((Truncate(buffer[position + 2..end]), end))
      else
        // a header of exactly the least number is length zero, and not aligned
        var wide := n - LENGTH_LIMIT;
        var start := if wide > 0 && (position + 2) % 2 != 0 then position + 3 else position + 2;
        var end := start + 2 * wide;
        if end > |buffer| then None else Some((Truncate(ReadWide(buffer[start..end])), end))
  }

  lemma {:induction false} NarrowReadBack(front: seq<Byte>, name: Name, back: seq<Byte>)
    requires |name| < LENGTH_LIMIT && IsAscii(name)
    ensures var code := Header(name) + NarrowBytes(name);
            ReadName(front + code + back, |front|) == Some((Truncate(name), |front| + |code|))
  {
    var buffer := front + (Header(name) + NarrowBytes(name)) + back;
    assert buffer[|front|] == Header(name)[0] && buffer[|front| + 1] == Header(name)[1];
    assert buffer[|front| + 2..|front| + 2 + |name|] == NarrowBytes(name) == name;
  }

  lemma {:induction false} WideReadBack(front: seq<Byte>, name: Name, back: seq<Byte>)
    requires |name| < LENGTH_LIMIT && !IsAscii(name)
    ensures var code := Header(name) + (Padding(|front| + 2) + WideBytes(name));
            ReadName(front + code + back, |front|) == Some((Truncate(name), |front| + |code|))
  {
    var buffer := front + (Header(name) + (Padding(|front| + 2) + WideBytes(name))) + back;
    assert buffer[|front|] == Header(name)[0] && buffer[|front| + 1] == Header(name)[1];
    var start := |front| + 2 + |Padding(|front| + 2)|;
    assert buffer[start..start + 2 * |name|] == WideBytes(name);
    WideRoundTrip(name);
  }

  lemma {:induction false} NameReadBack(front: seq<Byte>, name: Name, back: seq<Byte>)
    requires |name| < LENGTH_LIMIT
    ensures var code := Encode(|front|, name);
            ReadName(front + code + back, |front|) == Some((Truncate(name), |front| + |code|))
  {
    if IsAscii(name) {
      NarrowReadBack(front, name, back);
    } else {
      WideReadBack(front, name, back);
    }
  }

  lemma {:induction false} EncodedPrefix(names: seq<Name>, i: nat, n: nat)
    requires Writable(names) && i <= n <= |names|
    ensures EncodeAll(names, i) <= EncodeAll(names, n)
    decreases n
  {
    if i < n {
      EncodedPrefix(names, i, n - 1);
    }
  }

  /** The buffer is the names before, the next name, and the rest. */
  lemma {:induction false} SplitAt(names: seq<Name>, i: nat) returns (front: seq<Byte>, back: seq<Byte>)
    requires Writable(names) && i < |names|
    ensures front == EncodeAll(names, i)
    ensures EncodeAll(names, i + 1) == front + Encode(|front|, names[i])
    ensures EncodeAll(names, |names|) == front + Encode(|front|, names[i]) + back
  {
    EncodedPrefix(names, i + 1, |names|);
    front := EncodeAll(names, i);
    back := EncodeAll(names, |names|)[|EncodeAll(names, i + 1)|..];
  }

  lemma {:induction false} ReadBetween(buffer: seq<Byte>, front: seq<Byte>, name: Name, code: seq<Byte>,
                                       back: seq<Byte>)
    requires |name| < LENGTH_LIMIT && code == Encode(|front|, name) && buffer == front + code + back
    ensures ReadName(buffer, |front|) == Some((Truncate(name), |front| + |code|)) && |code| > 0
  {
    NameReadBack(front, name, back);
  }

  lemma {:induction false} NextName(names: seq<Name>, buffer: seq<Byte>, i: nat, position: nat)
    requires Writable(names) && i < |names| && position == |EncodeAll(names, i)| && buffer == EncodeAll(names, |names|)
    ensures ReadName(buffer, position) == Some((Truncate(names[i]), |EncodeAll(names, i + 1)|))
    ensures position < |EncodeAll(names, i + 1)| <= |buffer|
  {
    var front, back := SplitAt(names, i);
    ReadBetween(buffer, front, names[i], Encode(|front|, names[i]), back);
  }

  /** So many names have been read from a written buffer. */
  ghost predicate ReadSoFar(names: seq<Name>, result: seq<Name>, position: nat)
    requires Writable(names)
  {
    && |result| <= |names| && position == |EncodeAll(names, |result|)|
    && forall i :: 0 <= i < |result| ==> result[i] == Truncate(names[i])
  }

  lemma {:induction false} ReadAllWhenAtEnd(names: seq<Name>, buffer: seq<Byte>, result: seq<Name>, position: nat)
    requires Writable(names) && buffer == EncodeAll(names, |names|) && ReadSoFar(names, result, position)
    ensures position < |buffer| <==> |result| < |names|
  {
    if |result| < |names| {
      NextName(names, buffer, |result|, position);
    }
  }

  lemma {:induction false} ReadOneMore(names: seq<Name>, result: seq<Name>, position: nat, next: nat)
    requires Writable(names) && ReadSoFar(names, result, position) && |result| < |names|
    requires next == |EncodeAll(names, |result| + 1)|
    ensures ReadSoFar(names, result + [Truncate(names[|result|])], next)
  {
    assert |result + [Truncate(names[|result|])]| == |result| + 1;
  }

  lemma {:induction false} ReadStep(names: seq<Name>, buffer: seq<Byte>, result: seq<Name>, position: nat)
    requires Writable(names) && buffer == EncodeAll(names, |names|) && ReadSoFar(names, result, position)
    requires position < |buffer|
    ensures var name := ReadName(buffer, position);
            name.Some? && ReadSoFar(names, result + [name.value.0], name.value.1)
  {
    ReadAllWhenAtEnd(names, buffer, result, position);
    NextName(names, buffer, |result|, position);
    ReadOneMore(names, result, position, |EncodeAll(names, |result| + 1)|);
  }

  /** Reads names until the buffer ends. On a written buffer every name comes back, cut
      at its first zero. */
  method ReadNameBatchParts(buffer: seq<Byte>, ghost names: seq<Name>) returns (r: Option<seq<Name>>)
    ensures Writable(names) && buffer == EncodeAll(names, |names|) ==>
              r.Some? && |r.value| == |names| && forall i :: 0 <= i < |names| ==> r.value[i] == Truncate(names[i])
  {
    ghost var written := Writable(names) && buffer == EncodeAll(names, |names|);
    var result: seq<Name> := [];
    var position: nat := 0;
    while position < |buffer|
      invariant written ==> ReadSoFar(names, result, position)
      decreases |buffer| - position
    {
      if written {
        ReadStep(names, buffer, result, position);
      }
      var name := ReadName(buffer, position);
      if name.None? {
        return None;
      }
      result := result + [name.value.0];
      position := name.value.1;
    }
    if written {
      ReadAllWhenAtEnd(names, buffer, result, position);
    }
    r := Some(result);
  }

  /** Writing and reading a list of names is the identity exactly on lists without
      zeros. */
  method RoundTrip(names: seq<Name>) returns (r: Option<seq<Name>>)
    requires Writable(names)
    ensures r == Some(names) <==> forall i :: 0 <= i < |names| ==> 0 !in names[i]
  {
    var buffer := WriteNameBatchParts(names);
    r := ReadNameBatchParts(buffer, names);
    forall i | 0 <= i < |names|
      ensures r.value[i] == names[i] <==> 0 !in names[i]
    {
      TruncateKeeps(names[i]);
    }
    assert r.value == names <==> forall i :: 0 <= i < |names| ==> r.value[i] == names[i];
  }
}
