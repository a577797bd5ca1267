/** Encoder and Decoder of packages/golib/cbor/cbor.go, proved against the format in module Cbor. */
module CborObjects {
  import opened Cbor
  import opened GoInts
  import opened Wrappers
  import C = Cbor

  /** The length check of DecodeBytes, in 64-bit arithmetic, against what it means. */
  lemma LengthCheck(pos: nat, length: nat, size: nat)
    requires pos <= size < MAX63 && length < MAX64
    ensures ToInt64((pos + ToInt64(length)) % MAX64) > size <==> length < MAX63 && size < pos + length < MAX63
  {
    var sum := pos + ToInt64(length);
    if sum < 0 {
      assert sum % MAX64 == sum + MAX64;
    } else {
      assert sum % MAX64 == sum;
    }
  }

  lemma HeadStaysInside(data: seq<byte>, pos: nat)
    requires C.ReadHead(data, pos).result.Ok?
    ensures C.ReadHead(data, pos).pos <= |data| && C.ReadHead(data, pos).result.value.1 < MAX64
  {
    var info := data[pos] % 32;
    if info >= 24 {
      FromBigEndianBound(data[pos + 1..pos + 1 + Width(info)]);
      assert Pow256(1) == 0x100 && Pow256(2) == 0x1_0000 && Pow256(3) == 0x100_0000 && Pow256(4) == 0x1_0000_0000;
      assert Pow256(6) == 0x1_0000_0000_0000 && Pow256(8) == MAX64;
    }
  }

  class Encoder {
    var buf: seq<byte>

    constructor ()
      ensures buf == []
    {
      buf := [];
    }

    method Reset()
      modifies this
      ensures buf == []
    {
      buf := [];
    }

    method WriteHead(m: Major, val: nat)
      requires val < MAX64
      modifies this
      ensures buf == old(buf) + Head(m, val)
    {
      var major := Code(m);
      if val < 24 {
        assert BigEndian(val, 0) == [];
        buf := buf + [major + val];
      } else if val <= 0xff {
        assert BigEndian(val, 1) == BigEndian(0, 0) + [val] == [val];
        buf := buf + [major + 24, val];
      } else if val <= 0xffff {
        buf := buf + [major + 25] + BigEndian(val, 2);
      } else if val <= 0xffff_ffff {
        buf := buf + [major + 26] + BigEndian(val, 4);
      } else {
        buf := buf + [major + 27] + BigEndian(val, 8);
      }
    }

    method EncodeUint(v: nat)
      requires v < MAX64
      modifies this
      ensures buf == old(buf) + Encode(IUint(v))
    {
      WriteHead(Uint, v);
    }

    method EncodeInt(v: int)
      requires -MAX63 <= v < MAX63
      modifies this
      ensures buf == old(buf) + Encode(IInt(v))
    {
      if v >= 0 {
        WriteHead(Uint, v);
      } else {
        WriteHead(NegInt, -1 - v);
      }
    }

    method EncodeBytes(data: seq<byte>)
      requires |data| < MAX63
      modifies this
      ensures buf == old(buf) + Encode(IBytes(data))
    {
      WriteHead(Bytes, |data|);
      buf := buf + data;
    }

    method EncodeText(s: seq<byte>)
      requires |s| < MAX63
      modifies this
      ensures buf == old(buf) + Encode(IText(s))
    {
      WriteHead(Text, |s|);
      buf := buf + s;
    }

    method EncodeArrayHead(length: int)
      requires -MAX63 <= length < MAX63
      modifies this
      ensures buf == old(buf) + Head(Array, ToUint64(length)) && ToInt64(ToUint64(length)) == length
    {
      WriteHead(Array, ToUint64(length));
    }

    method EncodeMapHead(length: int)
      requires -MAX63 <= length < MAX63
      modifies this
      ensures buf == old(buf) + Head(Map, ToUint64(length)) && ToInt64(ToUint64(length)) == length
    {
      WriteHead(Map, ToUint64(length));
    }

    method EncodeBool(v: bool)
      modifies this
      ensures buf == old(buf) + Encode(IBool(v))
    {
      if v {
        buf := buf + [SIMPLE_TRUE];
      } else {
        buf := buf + [SIMPLE_FALSE];
      }
    }
  }

  class Decoder {
    const data: seq<byte>
    var pos: nat

    constructor (data: seq<byte>)
      ensures this.data == data && pos == 0
    {
      this.data, pos := data, 0;
    }

    method ReadHead() returns (r: Result<(Major, nat), Error>)
      modifies this
      ensures Read(pos, r) == C.ReadHead(data, old(pos))
    {
      if pos >= |data| {
        return Err(UnexpectedEnd);
      }
      var b := data[pos];
      pos := pos + 1;
      var major, info := MajorOf(b), b % 32;
      if info < 24 {
        return Ok((major, info));
      } else if info == 24 {
        if pos >= |data| {
          return Err(UnexpectedEnd);
        }
        var v := data[pos];
        assert data[pos..pos + 1] == [v] && FromBigEndian([v]) == FromBigEndian([]) * 256 + v by {
          assert [v][..0] == [];
        }
        pos := pos + 1;
        return Ok((major, v));
      } else if info == 25 {
        if pos + 2 > |data| {
          return Err(UnexpectedEnd);
        }
        pos := pos + 2;
        return Ok((major, FromBigEndian(data[pos - 2..pos])));
      } else if info == 26 {
        if pos + 4 > |data| {
          return Err(UnexpectedEnd);
        }
        pos := pos + 4;
        return Ok((major, FromBigEndian(data[pos - 4..pos])));
      } else if info == 27 {
        if pos + 8 > |data| {
          return Err(UnexpectedEnd);
        }
        pos := pos + 8;
        return Ok((major, FromBigEndian(data[pos - 8..pos])));
      }
      return Err(InvalidType);
    }

    method DecodeUint() returns (r: Result<nat, Error>)
      modifies this
      ensures Read(pos, r) == C.DecodeUint(data, old(pos))
    {
      var head := ReadHead();
      if head.Err? {
        return Err(head.error);
      }
      if head.value.0 != Uint {
        return Err(InvalidType);
      }
      return Ok(head.value.1);
    }

    method DecodeInt() returns (r: Result<int, Error>)
      modifies this
      ensures Read(pos, r) == C.DecodeInt(data, old(pos))
    {
      var head := ReadHead();
      if head.Err? {
        return Err(head.error);
      }
      match head.value.0 {
        case Uint => return Ok(ToInt64(head.value.1));
        case NegInt => return Ok(-1 - ToInt64(head.value.1));
        case _ => return Err(InvalidType);
      }
    }

    /** DecodeBytes with m = Bytes, DecodeText with m = Text. */
    method DecodeString(m: Major) returns (r: Result<seq<byte>, Error>)
      requires |data| < MAX63
      modifies this
      ensures Read(pos, r) == C.DecodeString(m, data, old(pos))
    {
      var head := ReadHead();
      if head.Err? {
        return Err(head.error);
      }
      if head.value.0 != m {
        return Err(InvalidType);
      }
      var length := head.value.1;
      HeadStaysInside(data, old(pos));
      LengthCheck(pos, length, |data|);
      if ToInt64((pos + ToInt64(length)) % MAX64) > |data| {
        return Err(UnexpectedEnd);
      }
      if length >= MAX63 || pos + length > |data| {
        return Err(Panic);
      }
      pos := pos + length;
      return Ok(data[pos - length..pos]);
    }

    method DecodeLength(m: Major) returns (r: Result<int, Error>)
      modifies this
      ensures Read(pos, r) == C.DecodeLength(m, data, old(pos))
    {
      var head := ReadHead();
      if head.Err? {
        return Err(head.error);
      }
      if head.value.0 != m {
        return Err(InvalidType);
      }
      return Ok(ToInt64(head.value.1));
    }

    method DecodeBool() returns (r: Result<bool, Error>)
      modifies this
      ensures Read(pos, r) == C.DecodeBool(data, old(pos))
    {
      if pos >= |data| {
        return Err(UnexpectedEnd);
      }
      var b := data[pos];
      pos := pos + 1;
      if b == SIMPLE_TRUE {
        return Ok(true);
      } else if b == SIMPLE_FALSE {
        return Ok(false);
      }
      return Err(InvalidType);
    }
  }
}
