/** Consistent Overhead Byte Stuffing: the agent's C loops over a caller's
    buffer and the host's growing bytearray, both against one recursive form. */
module Cobs {
  import opened Bits

  datatype Decoded = Bytes(data: seq<Byte>) | Malformed

  /** Encoding of the rest of the input when `block` non-zero bytes are already
      collected behind the code byte that is still open. */
  function EncodeFrom(data: seq<Byte>, block: seq<Byte>): (e: seq<Byte>)
    requires |block| < 254
    ensures |e| >= 1 + |block| + |data|
    decreases |data|
  {
    if data == [] then [|block| + 1] + block
    else if data[0] == 0 then [|block| + 1] + block + EncodeFrom(data[1..], [])
    else
      var b := block + [data[0]];
      if |b| == 254 then [255] + b + EncodeFrom(data[1..], []) else EncodeFrom(data[1..], b)
  }

  function Encode(data: seq<Byte>): seq<Byte>
  {
    EncodeFrom(data, [])
  }

  function Decode(e: seq<Byte>): Decoded
    decreases |e|
  {
    if e == [] then Bytes([])
    else if e[0] == 0 || |e| < e[0] then Malformed
    else
      var rest := e[e[0]..];
      match Decode(rest)
      case Malformed => Malformed
      case Bytes(d) => Bytes(e[1..e[0]] + (if e[0] < 255 && rest != [] then [0] else []) + d)
  }

  ghost predicate NoZero(s: seq<Byte>)
  {
    forall i :: 0 <= i < |s| ==> s[i] != 0
  }

  /** One closed block in front of an encoded remainder. */
  lemma DecodeBlock(block: seq<Byte>, rest: seq<Byte>)
    requires |block| <= 254
    ensures Decode([|block| + 1] + block + rest) ==
            match Decode(rest)
            case Malformed => Malformed
            case Bytes(d) => Bytes(block + (if |block| < 254 && rest != [] then [0] else []) + d)
  {
    var e: seq<Byte> := [|block| + 1] + block + rest;
    assert e[e[0]..] == rest;
    assert e[1..e[0]] == block;
  }

  lemma {:induction false} DecodeEncodeFrom(data: seq<Byte>, block: seq<Byte>)
    requires |block| < 254
    ensures Decode(EncodeFrom(data, block)) == Bytes(block + data)
    decreases |data|
  {
    if data == [] {
      DecodeBlock(block, []);
      assert [|block| + 1] + block + [] == [|block| + 1] + block;
    } else {
      var b, rest := block + [data[0]], data[1..];
      assert b + rest == block + data;
      if data[0] == 0 || |b| == 254 {
        DecodeEncodeFrom(rest, []);
        DecodeClosed(if data[0] == 0 then block else b, rest);
      } else {
        DecodeEncodeFrom(rest, b);
      }
    }
  }

  /** A closed block, then a fresh one: the implied zero appears exactly when the
      block was closed by a zero. */
  lemma DecodeClosed(block: seq<Byte>, data: seq<Byte>)
    requires |block| <= 254 && Decode(EncodeFrom(data, [])) == Bytes([] + data)
    ensures Decode([|block| + 1] + block + EncodeFrom(data, [])) ==
            Bytes(block + (if |block| < 254 then [0] else []) + data)
  {
    DecodeBlock(block, EncodeFrom(data, []));
    assert [] + data == data;
  }

  /** Decoding an encoding gives the input back, for every byte string. */
  lemma RoundTrip(data: seq<Byte>)
    ensures Decode(Encode(data)) == Bytes(data)
  {
    DecodeEncodeFrom(data, []);
    assert [] + data == data;
  }

  lemma {:induction false} EncodeFromNoZero(data: seq<Byte>, block: seq<Byte>)
    requires |block| < 254 && NoZero(block)
    ensures NoZero(EncodeFrom(data, block))
    decreases |data|
  {
    if data != [] {
      if data[0] == 0 {
        EncodeFromNoZero(data[1..], []);
      } else {
        var b := block + [data[0]];
        if |b| == 254 { EncodeFromNoZero(data[1..], []); } else { EncodeFromNoZero(data[1..], b); }
      }
    }
  }

  lemma {:induction false} EncodeFromLength(data: seq<Byte>, block: seq<Byte>)
    requires |block| < 254
    ensures |EncodeFrom(data, block)| <= |block| + |data| + (|block| + |data|) / 254 + 1
    decreases |data|
  {
    if data != [] {
      if data[0] == 0 {
        EncodeFromLength(data[1..], []);
      } else {
        var b := block + [data[0]];
        if |b| == 254 { EncodeFromLength(data[1..], []); } else { EncodeFromLength(data[1..], b); }
      }
    }
  }

  /** No delimiter inside an encoding, and the documented size bound. */
  lemma EncodeShape(data: seq<Byte>)
    ensures NoZero(Encode(data))
    ensures 1 + |data| <= |Encode(data)| <= |data| + |data| / 254 + 1
  {
    EncodeFromNoZero(data, []);
    EncodeFromLength(data, []);
  }

  lemma {:induction false} Collects(s: seq<Byte>, tail: seq<Byte>, block: seq<Byte>)
    requires NoZero(s) && |block| + |s| < 254
    ensures EncodeFrom(s + tail, block) == EncodeFrom(tail, block + s)
    decreases |s|
  {
    if s == [] {
      assert s + tail == tail && block + s == block;
    } else {
      assert (s + tail)[1..] == s[1..] + tail && block + [s[0]] + s[1..] == block + s;
      Collects(s[1..], tail, block + [s[0]]);
    }
  }

  /** The format: up to 253 bytes without a zero stand behind their number plus one, with the
      zero that follows them left out; 254 such bytes stand behind 255, and nothing is left
      out. These equations give the encoding of every byte string. */
  lemma EncodesByBlocks(s: seq<Byte>, rest: seq<Byte>)
    requires NoZero(s) && |s| <= 254
    ensures |s| < 254 ==> Encode(s) == [|s| + 1] + s && Encode(s + [0] + rest) == [|s| + 1] + s + Encode(rest)
    ensures |s| == 254 ==> Encode(s + rest) == [255] + s + Encode(rest)
  {
    if |s| < 254 {
      Collects(s, [], []);
      Collects(s, [0] + rest, []);
      assert s + [] == s && [] + s == s && s + [0] + rest == s + ([0] + rest) && ([0] + rest)[1..] == rest;
    } else {
      var t := s[..253];
      Collects(t, [s[253]] + rest, []);
      assert s + rest == t + ([s[253]] + rest) && [] + t == t && t + [s[253]] == s && ([s[253]] + rest)[1..] == rest;
    }
  }

  /** `done` is final, `block` is collected behind the open code byte and
      input[i..] is still to be read. */
  ghost predicate Encoding(input: seq<Byte>, done: seq<Byte>, block: seq<Byte>, i: nat)
  {
    i <= |input| && |block| < 254 && done + EncodeFrom(input[i..], block) == Encode(input)
  }

  /** A zero, or a 254th byte, closes the open block. */
  lemma EncodingStep(input: seq<Byte>, done: seq<Byte>, block: seq<Byte>, i: nat)
    requires i < |input| && Encoding(input, done, block, i)
    ensures input[i] == 0 ==> Encoding(input, done + [|block| + 1] + block, [], i + 1)
    ensures input[i] != 0 && |block| < 253 ==> Encoding(input, done, block + [input[i]], i + 1)
    ensures input[i] != 0 && |block| == 253 ==>
              Encoding(input, done + [255] + (block + [input[i]]), [], i + 1)
  {
    var rest := input[i..];
    assert rest[1..] == input[i + 1..];
    var tail := EncodeFrom(rest[1..], []);
    assert done + ([|block| + 1] + block + tail) == done + [|block| + 1] + block + tail;
    assert done + ([255] + (block + [rest[0]]) + tail) == done + [255] + (block + [rest[0]]) + tail;
  }

  lemma EncodingStart(input: seq<Byte>)
    ensures Encoding(input, [], [], 0)
  {
    assert input[0..] == input && [] + Encode(input) == Encode(input);
  }

  lemma EncodingRoom(input: seq<Byte>, done: seq<Byte>, block: seq<Byte>, i: nat)
    requires Encoding(input, done, block, i)
    ensures |done| + 1 + |block| + |input| - i <= |Encode(input)|
  {
  }

  lemma EncodingEnd(input: seq<Byte>, done: seq<Byte>, block: seq<Byte>)
    requires Encoding(input, done, block, |input|)
    ensures Encode(input) == done + [|block| + 1] + block
  {
  }

  /** cobs_encode of agent/cobs.c: code bytes are patched backwards in place. */
  method EncodeInto(input: seq<Byte>, output: array<Byte>) returns (n: nat)
    requires output.Length >= |input| + |input| / 254 + 1
    modifies output
    ensures n <= output.Length && output[..n] == Encode(input)
  {
    hide Encoding, Encode, EncodeFrom;
    EncodingStart(input);
    EncodeShape(input);
    var outIdx := 1;
    var codeIdx := 0;
    var code: Byte := 1;
    var i := 0;
    ghost var done: seq<Byte>, block: seq<Byte> := [], [];
    while i < |input|
      invariant 0 <= i <= |input| && 0 <= codeIdx < outIdx <= output.Length
      invariant code == outIdx - codeIdx && 1 <= code <= 254
      invariant output[..codeIdx] == done && output[codeIdx + 1..outIdx] == block
      invariant Encoding(input, done, block, i)
    {
      EncodingRoom(input, done, block, i);
      EncodingStep(input, done, block, i);
      if input[i] == 0 {
        output[codeIdx] := code;
        codeIdx, outIdx, code := outIdx, outIdx + 1, 1;
        done, block := done + [|block| + 1] + block, [];
      } else {
        output[outIdx] := input[i];
        outIdx, code := outIdx + 1, code + 1;
        block := block + [input[i]];
        if code == 255 {
          output[codeIdx] := code;
          codeIdx, outIdx, code := outIdx, outIdx + 1, 1;
          done, block := done + [255] + block, [];
        }
      }
      i := i + 1;
      EncodingRoom(input, done, block, i);
    }
    EncodingEnd(input, done, block);
    output[codeIdx] := code;
    n := outIdx;
    assert output[..n] == done + [|block| + 1] + block;
  }

  /** encode of src/defib/agent/cobs.py: a growing buffer with placeholders. */
  method EncodeGrowing(data: seq<Byte>) returns (output: seq<Byte>)
    ensures output == Encode(data)
  {
    hide Encoding, Encode, EncodeFrom;
    EncodingStart(data);
    output := [0];
    var codeIdx := 0;
    var code: Byte := 1;
    var i := 0;
    ghost var done: seq<Byte>, block: seq<Byte> := [], [];
    while i < |data|
      invariant 0 <= i <= |data| && 0 <= codeIdx < |output|
      invariant code == |output| - codeIdx && 1 <= code <= 254
      invariant output[..codeIdx] == done && output[codeIdx + 1..] == block
      invariant Encoding(data, done, block, i)
    {
      EncodingStep(data, done, block, i);
      if data[i] == 0 {
        output := output[codeIdx := code];
        codeIdx := |output|;
        output := output + [0];
        code := 1;
        done, block := done + [|block| + 1] + block, [];
      } else {
        output := output + [data[i]];
        code := code + 1;
        block := block + [data[i]];
        if code == 255 {
          output := output[codeIdx := code];
          codeIdx := |output|;
          output := output + [0];
          code := 1;
          done, block := done + [255] + block, [];
        }
      }
      i := i + 1;
    }
    EncodingEnd(data, done, block);
    output := output[codeIdx := code];
    assert output == done + [|block| + 1] + block;
  }

  /** `output` is decoded from data[..idx] and the rest is still to be read. */
  ghost predicate Decoding(data: seq<Byte>, output: seq<Byte>, idx: nat)
  {
    idx <= |data| && Decode(data) == Behind(output, Decode(data[idx..]))
  }

  ghost function Behind(output: seq<Byte>, rest: Decoded): Decoded
  {
    match rest
    case Malformed => Malformed
    case Bytes(d) => Bytes(output + d)
  }

  /** A zero code byte or a short block is malformed; a whole block moves to the
      output, with the implied zero unless it was full or last. */
  lemma DecodingStep(data: seq<Byte>, output: seq<Byte>, idx: nat)
    requires idx < |data| && Decoding(data, output, idx)
    ensures data[idx] == 0 || |data| < idx + data[idx] ==> Decode(data) == Malformed
    ensures 0 < data[idx] && idx + data[idx] <= |data| ==>
              Decoding(data, output + data[idx + 1..idx + data[idx]] + ImpliedZero(data, idx), idx + data[idx])
  {
    var rest := data[idx..];
    BehindBlock(output, rest);
    if 0 < rest[0] <= |rest| {
      assert rest[rest[0]..] == data[idx + data[idx]..];
      assert rest[1..rest[0]] == data[idx + 1..idx + data[idx]];
    }
  }

  lemma BehindBlock(output: seq<Byte>, rest: seq<Byte>)
    requires rest != []
    ensures Behind(output, Decode(rest)) ==
            if 0 < rest[0] <= |rest|
            then Behind(output + rest[1..rest[0]] + ImpliedZero(rest, 0), Decode(rest[rest[0]..]))
            else Malformed
  {
    if 0 < rest[0] <= |rest| {
      DecodeWhole(rest);
      BehindTwice(output, rest[1..rest[0]], ImpliedZero(rest, 0), Decode(rest[rest[0]..]));
    }
  }

  lemma DecodeWhole(e: seq<Byte>)
    requires e != [] && 0 < e[0] <= |e|
    ensures Decode(e) == Behind(e[1..e[0]] + ImpliedZero(e, 0), Decode(e[e[0]..]))
  {
  }

  lemma BehindTwice(output: seq<Byte>, run: seq<Byte>, zero: seq<Byte>, rest: Decoded)
    ensures Behind(output, Behind(run + zero, rest)) == Behind(output + run + zero, rest)
  {
    if rest.Bytes? { assert output + (run + zero + rest.data) == output + run + zero + rest.data; }
  }

  /** The zero that a short, non-final block stands for. */
  ghost function ImpliedZero(data: seq<Byte>, idx: nat): seq<Byte>
    requires idx < |data|
  {
    if data[idx] < 255 && idx + data[idx] < |data| then [0] else []
  }

  lemma DecodingStart(data: seq<Byte>)
    ensures Decoding(data, [], 0)
  {
    assert data[0..] == data;
    match Decode(data) { case Malformed => case Bytes(d) => assert [] + d == d; }
  }

  lemma DecodingEnd(data: seq<Byte>, output: seq<Byte>)
    requires Decoding(data, output, |data|)
    ensures Decode(data) == Bytes(output)
  {
    assert output + [] == output;
  }

  /** The inner loop of decode: append n bytes, or stop at the end of the data. */
  method AppendRun(output: seq<Byte>, data: seq<Byte>, idx: nat, n: nat) returns (whole: bool, out: seq<Byte>)
    requires idx <= |data|
    ensures whole <==> idx + n <= |data|
    ensures whole ==> out == output + data[idx..idx + n]
  {
    out := output;
    for k := 0 to n
      invariant idx + k <= |data| && out == output + data[idx..idx + k]
    {
      if idx + k >= |data| { return false, out; }
      out := out + [data[idx + k]];
    }
    whole := true;
  }

  /** decode of src/defib/agent/cobs.py; its two ValueErrors are Malformed. */
  method DecodeGrowing(data: seq<Byte>) returns (r: Decoded)
    ensures r == Decode(data)
  {
    hide Decoding, Decode;
    var output: seq<Byte> := [];
    var idx := 0;
    DecodingStart(data);
    while idx < |data|
      invariant 0 <= idx <= |data|
      invariant Decoding(data, output, idx)
    {
      DecodingStep(data, output, idx);
      var code := data[idx];
      if code == 0 { return Malformed; }
      var whole, out := AppendRun(output, data, idx + 1, code - 1);
      if !whole { return Malformed; }
      if code < 255 && idx + code < |data| { out := out + [0]; }
      assert out == output + data[idx + 1..idx + code] + ImpliedZero(data, idx);
      output, idx := out, idx + code;
    }
    DecodingEnd(data, output);
    return Bytes(output);
  }

  // ---- How far cobs_decode writes -----------------------------------------------------------

  /** The bytes cobs_decode has written when it returns, malformed input included. */
  function Reach(e: seq<Byte>): nat
    decreases |e|
  {
    if e == [] || e[0] == 0 then 0
    else if |e| < e[0] then |e| - 1
    else e[0] - 1 + (if e[0] < 255 && e[0] < |e| then 1 else 0) + Reach(e[e[0]..])
  }

  /** Never as many as it reads; for well-formed input, the decoded bytes. */
  lemma {:induction false} ReachBound(e: seq<Byte>)
    ensures e != [] ==> Reach(e) < |e|
    ensures Decode(e).Bytes? ==> Reach(e) == |Decode(e).data|
    decreases |e|
  {
    if e != [] && 0 < e[0] <= |e| { ReachBound(e[e[0]..]); }
  }

  /** Code bytes 1 alone: each stands for a zero but the last. */
  lemma {:induction false} Ones(n: nat)
    requires n > 0
    ensures Decode(Fill(n, 1)) == Bytes(Fill(n - 1, 0)) && Reach(Fill(n, 1)) == n - 1
    decreases n
  {
    var e: seq<Byte> := Fill(n, 1);
    assert e[1..] == Fill(n - 1, 1) && e[1..1] == [];
    if n > 1 {
      Ones(n - 1);
      assert [0] + Fill(n - 2, 0) == Fill(n - 1, 0);
    }
  }

  /** A buffer of `size` bytes holds whatever n bytes decode to, exactly when n is at most
      one more. */
  lemma FitsExactly(n: nat, size: nat)
    ensures (forall e: seq<Byte> :: |e| == n ==> Reach(e) <= size) <==> n <= size + 1
  {
    hide Reach;
    if n <= size + 1 {
      forall e: seq<Byte> | |e| == n ensures Reach(e) <= size {
        ReachBound(e);
        if e == [] { ReachNothing(); }
      }
    } else {
      Ones(n);
    }
  }

  lemma ReachNothing()
    ensures Reach([]) == 0
  {
  }

  /** The inner loop of cobs_decode, writing into the caller's buffer. */
  method CopyRun(input: seq<Byte>, idx: nat, output: array<Byte>, at: nat, n: nat) returns (whole: bool)
    requires idx <= |input| && at + (if idx + n <= |input| then n else |input| - idx) <= output.Length
    modifies output
    ensures whole <==> idx + n <= |input|
    ensures output[..at] == old(output[..at])
    ensures whole ==> output[at..at + n] == input[idx..idx + n]
    ensures forall i :: at + (if whole then n else |input| - idx) <= i < output.Length ==> output[i] == old(output[i])
  {
    for k := 0 to n
      invariant idx + k <= |input|
      invariant output[..at] == old(output[..at])
      invariant output[at..at + k] == input[idx..idx + k]
      invariant forall i :: at + k <= i < output.Length ==> output[i] == old(output[i])
    {
      if idx + k >= |input| { return false; }
      output[at + k] := input[idx + k];
      assert output[at..at + k + 1] == output[at..at + k] + [input[idx + k]];
    }
    whole := true;
  }

  /** cobs_decode of agent/cobs.c: the output length, with 0 standing for both
      kinds of malformed input (and for an empty result). The buffer must hold what it
      writes; behind that nothing changes. */
  method DecodeInto(input: seq<Byte>, output: array<Byte>) returns (n: nat)
    requires Reach(input) <= output.Length
    modifies output
    ensures match Decode(input)
            case Malformed => n == 0
            case Bytes(d) => n == |d| && n <= output.Length && output[..n] == d
    ensures forall i :: Reach(input) <= i < output.Length ==> output[i] == old(output[i])
  {
    hide Decoding, Decode, Reach;
    n := 0;
    var idx := 0;
    DecodingStart(input);
    assert input[0..] == input;
    while idx < |input|
      invariant 0 <= n && idx <= |input| && n + Reach(input[idx..]) == Reach(input)
      invariant Decoding(input, output[..n], idx)
      invariant forall i :: Reach(input) <= i < output.Length ==> output[i] == old(output[i])
    {
      ghost var before := output[..n];
      DecodingStep(input, before, idx);
      ReachStep(input, idx);
      var code := input[idx];
      if code == 0 { return 0; }
      var whole := CopyRun(input, idx + 1, output, n, code - 1);
      if !whole { return 0; }
      assert output[..n + code - 1] == output[..n] + output[n..n + code - 1];
      n := n + code - 1;
      assert output[..n] == before + input[idx + 1..idx + code];
      if code < 255 && idx + code < |input| {
        output[n] := 0;
        assert output[..n + 1] == output[..n] + [0];
        n := n + 1;
      }
      assert output[..n] == before + input[idx + 1..idx + code] + ImpliedZero(input, idx);
      idx := idx + code;
    }
    DecodingEnd(input, output[..n]);
  }

  lemma ReachStep(input: seq<Byte>, idx: nat)
    requires idx < |input|
    ensures var code, left := input[idx], |input| - idx;
            && (code == 0 ==> Reach(input[idx..]) == 0)
            && (code > left ==> Reach(input[idx..]) == left - 1)
            && (0 < code <= left ==>
                  Reach(input[idx..]) == code - 1 + |ImpliedZero(input, idx)| + Reach(input[idx + code..]))
  {
    var e := input[idx..];
    if 0 < e[0] <= |e| { assert e[e[0]..] == input[idx + input[idx]..]; }
  }
}
