/** The node budget and the growing output buffer of the TypeScript codec. */
module CodecBuffers {
  import opened LittleEndian

  class CodecBudget {
    const limit: nat
    var used: nat

    ghost predicate Valid()
      reads this
    {
      used <= limit
    }

    constructor (limit: nat)
      ensures Valid() && this.limit == limit && used == 0
    {
      this.limit, used := limit, 0;
    }

    /** All or nothing: an over-limit charge leaves the budget as it was. */
    method Charge(nodes: nat) returns (ok: bool)
      requires Valid()
      modifies this
      ensures Valid()
      ensures ok <==> old(used) + nodes <= limit
      ensures used == if ok then old(used) + nodes else old(used)
    {
      if nodes > limit - used {
        return false;
      }
      used := used + nodes;
      return true;
    }
  }

  class EncoderBuffer {
    const maximum: nat
    var buffer: array<Byte>
    var used: nat

    ghost predicate Valid()
      reads this, buffer
    {
      used <= buffer.Length <= maximum
    }

    ghost function Contents(): Bytes
      requires Valid()
      reads this, buffer
    {
      buffer[..used]
    }

    constructor (maximum: nat, initialCapacity: nat)
      ensures Valid() && fresh(buffer) && this.maximum == maximum && Contents() == []
    {
      this.maximum := maximum;
      buffer := new Byte[if maximum < initialCapacity then maximum else initialCapacity](_ => 0);
      used := 0;
    }

    /** The capacity that doubling reaches: enough, and never beyond the maximum. */
    method Grown(required: nat) returns (capacity: nat)
      requires Valid() && buffer.Length < required <= maximum
      ensures required <= capacity <= maximum
    {
      capacity := if buffer.Length < 1 then 1 else buffer.Length;
      while capacity < required
        invariant capacity <= maximum
        decreases required - capacity
      {
        var next := if maximum < capacity * 2 then maximum else capacity * 2;
        if next <= capacity {
          capacity := required;
          break;
        }
        capacity := next;
      }
    }

    /** Makes room without changing the contents, or reports that the maximum would be exceeded. */
    method Ensure(additional: nat) returns (ok: bool)
      requires Valid()
      modifies this
      ensures Valid() && used == old(used)
      ensures ok <==> used + additional <= maximum
      ensures ok ==> used + additional <= buffer.Length
      ensures buffer == old(buffer) || fresh(buffer)
      ensures Contents() == old(Contents())
    {
      var required := used + additional;
      if required > maximum {
        return false;
      }
      if required <= buffer.Length {
        return true;
      }
      var capacity := Grown(required);
      var replacement := new Byte[capacity](_ => 0);
      Overwrite(replacement, 0, buffer[..used]);
      assert replacement[..used] == buffer[..used];
      buffer := replacement;
      return true;
    }

    method Append(bytes: Bytes) returns (ok: bool)
      requires Valid()
      modifies this, buffer
      ensures Valid() && (buffer == old(buffer) || fresh(buffer))
      ensures ok <==> |old(Contents())| + |bytes| <= maximum
      ensures Contents() == if ok then old(Contents()) + bytes else old(Contents())
    {
      ok := Ensure(|bytes|);
      if ok {
        ghost var before := buffer[..used];
        Overwrite(buffer, used, bytes);
        used := used + |bytes|;
        assert buffer[..used] == before + bytes;
      }
    }

    method Finish() returns (bytes: Bytes)
      requires Valid()
      ensures bytes == Contents()
    {
      return buffer[..used];
    }
  }
}
