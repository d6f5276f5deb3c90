/** `cbor::TxStream` and `cbor::RxStream`: a growing count over a fixed buffer, and a cursor. */
module Streams {
  import opened Wrappers
  import opened Cbor

  datatype Status = OK | OVERFLOW

  /** A snapshot of a TxStream: `ret_`, `size_`, the capacity and the used part of `buffer_`. */
  datatype TxState = TxState(status: Status, size: nat, capacity: nat, written: seq<byte>)

  /** What putting the bytes `bs` does, in one operation or many: the size always grows by all of
      them; they are written if the stream was good and has room for all, and else it overflows. */
  ghost predicate Emits(pre: TxState, post: TxState, bs: seq<byte>) {
    && post.capacity == pre.capacity
    && post.size == pre.size + |bs|
    && if pre.status == OK && |pre.written| + |bs| <= pre.capacity
       then post.status == OK && post.written == pre.written + bs
       else post.status == OVERFLOW
  }

  lemma EmitsNothing(s: TxState)
    requires s.status == OK ==> |s.written| <= s.capacity
    ensures Emits(s, s, [])
  {
  }

  lemma EmitsBoth(a: TxState, b: TxState, c: TxState, x: seq<byte>, y: seq<byte>)
    requires Emits(a, b, x) && Emits(b, c, y)
    ensures Emits(a, c, x + y)
  {
    Regroup(a.written, x, y);
  }

  class TxStream {
    var status: Status
    var size: nat
    var buffer: array<byte>
    var txPos: nat

    ghost predicate Valid()
      reads this
    {
      txPos <= buffer.Length
    }

    ghost function State(): (s: TxState)
      requires Valid()
      reads this, buffer
      ensures |s.written| <= s.capacity
    {
      TxState(status, size, buffer.Length, buffer[..txPos])
    }

    constructor (hint: nat)
      ensures Valid() && fresh(buffer)
      ensures State() == TxState(OK, 0, hint, [])
    {
      status, size, txPos := OK, 0, 0;
      buffer := new byte[hint];
    }

    /** Move assignment: takes over the other stream's state and buffer, and leaves it empty. */
    method MoveAssign(other: TxStream)
      requires other.Valid() && other != this
      modifies this, other
      ensures Valid() && buffer == old(other.buffer) && State() == old(other.State())
      ensures other.Valid() && fresh(other.buffer) && other.State() == TxState(OK, 0, 0, [])
    {
      status, size, buffer, txPos := other.status, other.size, other.buffer, other.txPos;
      other.status, other.size, other.txPos := OK, 0, 0;
      other.buffer := new byte[0];
    }

    /** `DPS_TxBufferAppend`: all of the bytes, or none and an overflow. */
    method Append(bs: seq<byte>) returns (ret: Status)
      requires Valid()
      modifies this`txPos, buffer
      ensures Valid()
      ensures ret == if old(txPos) + |bs| <= buffer.Length then OK else OVERFLOW
      ensures buffer[..txPos] == old(buffer[..txPos]) + if ret == OK then bs else []
    {
      if buffer.Length - txPos < |bs| {
        return OVERFLOW;
      }
      for i := 0 to |bs|
        invariant txPos == old(txPos)
        invariant buffer[..txPos + i] == old(buffer[..txPos]) + bs[..i]
      {
        buffer[txPos + i] := bs[i];
      }
      txPos := txPos + |bs|;
      assert bs[..|bs|] == bs;
      return OK;
    }

    /** The shape of every `operator<<`: count the item by the library's `CBOR_SIZEOF_*`, and encode
        it if the stream is good. */
    method Put(item: seq<byte>, sizeof: nat)
      requires Valid() && sizeof == |item|
      modifies this, buffer
      ensures Valid() && buffer == old(buffer)
      ensures Emits(old(State()), State(), item)
    {
      size := size + sizeof;
      if status == OK {
        status := Append(item);
      }
    }

    /** Strings are encoded as a head and then the content, which may not fit any more. */
    method PutString(major: nat, s: seq<byte>)
      requires Valid() && major < 8 && |s| < TWO_64
      modifies this, buffer
      ensures Valid() && buffer == old(buffer)
      ensures Emits(old(State()), State(), EncodeString(major, s))
    {
      size := size + HeadSize(|s|) + |s|;
      ghost var before := buffer[..txPos];
      if status == OK {
        status := Append(Head(major, |s|));
        if status == OK {
          status := Append(s);
          Regroup(before, Head(major, |s|), s);
        }
      }
    }
  }

  // ---------- reading ----------

  predicate IsTail(r: seq<byte>, bs: seq<byte>) {
    |r| <= |bs| && bs[|bs| - |r|..] == r
  }

  /** A read that returns instead of throwing: it delivers what the parse of the bytes before it
      gives, and leaves the rest. */
  ghost predicate Follows<T>(p: Parse<T>, result: Option<T>, rest: seq<byte>) {
    match p
    case Fail => result.None?
    case Got(v, r) => result == Some(v) && rest == r
  }

  lemma HeadLeavesTail(bs: seq<byte>)
    requires ReadHead(bs).Got?
    ensures IsTail(ReadHead(bs).rest, bs)
  {
  }

  class RxStream {
    var base: array<byte>
    var rxPos: nat

    ghost predicate Valid()
      reads this
    {
      rxPos <= base.Length
    }

    ghost function Rest(): seq<byte>
      requires Valid()
      reads this, base
    {
      base[rxPos..]
    }

    constructor (data: seq<byte>)
      ensures Valid() && fresh(base) && Rest() == data
    {
      base := new byte[|data|](i requires 0 <= i < |data| => data[i]);
      rxPos := 0;
    }

    /** Moves the cursor so that `r` is what remains. */
    method Advance(ghost r: seq<byte>, remaining: nat)
      requires Valid() && IsTail(r, Rest()) && remaining == |r|
      modifies this`rxPos
      ensures Valid() && Rest() == r
    {
      rxPos := base.Length - remaining;
    }

    method GetUint(max: nat) returns (result: Option<nat>)
      requires Valid()
      modifies this`rxPos
      ensures Valid() && Follows(ReadUint(max, old(Rest())), result, Rest())
    {
      match ReadUint(max, base[rxPos..])
      case Fail => return None;
      case Got(n, r) =>
        HeadLeavesTail(Rest());
        Advance(r, |r|);
        return Some(n);
    }

    method GetInt(low: int, high: int) returns (result: Option<int>)
      requires Valid()
      modifies this`rxPos
      ensures Valid() && Follows(ReadInt(low, high, old(Rest())), result, Rest())
    {
      match ReadInt(low, high, base[rxPos..])
      case Fail => return None;
      case Got(i, r) =>
        HeadLeavesTail(Rest());
        Advance(r, |r|);
        return Some(i);
    }

    method GetBool() returns (result: Option<bool>)
      requires Valid()
      modifies this`rxPos
      ensures Valid() && Follows(ReadBool(old(Rest())), result, Rest())
    {
      match ReadBool(base[rxPos..])
      case Fail => return None;
      case Got(b, r) =>
        HeadLeavesTail(Rest());
        Advance(r, |r|);
        return Some(b);
    }

    method GetBits(info: nat) returns (result: Option<nat>)
      requires Valid()
      modifies this`rxPos
      ensures Valid() && Follows(ReadBits(info, old(Rest())), result, Rest())
    {
      match ReadBits(info, base[rxPos..])
      case Fail => return None;
      case Got(n, r) =>
        HeadLeavesTail(Rest());
        Advance(r, |r|);
        return Some(n);
    }

    method GetArray() returns (result: Option<nat>)
      requires Valid()
      modifies this`rxPos
      ensures Valid() && Follows(ReadArray(old(Rest())), result, Rest())
    {
      match ReadArray(base[rxPos..])
      case Fail => return None;
      case Got(n, r) =>
        HeadLeavesTail(Rest());
        Advance(r, |r|);
        return Some(n);
    }

    /** `deserializeSequenceSize`: looks at the length without moving. */
    method Peek() returns (result: Option<nat>)
      requires Valid()
      ensures Follows(PeekSize(Rest()), result, Rest())
    {
      match PeekSize(base[rxPos..])
      case Fail => return None;
      case Got(n, _) => return Some(n);
    }

    method GetString(major: nat) returns (result: Option<seq<byte>>)
      requires Valid()
      modifies this`rxPos
      ensures Valid() && Follows(ReadString(major, old(Rest())), result, Rest())
    {
      match ReadString(major, base[rxPos..])
      case Fail => return None;
      case Got(s, r) =>
        HeadLeavesTail(Rest());
        Advance(r, |r|);
        return Some(s);
    }
  }
}
