/** The two-wire bus as the driver sees it: an object that records every
    transaction it is asked to make and answers each one from a fixed, but
    arbitrary, script of replies. Any transaction may fail. */
module I2c {

  /** An error reported by the bus implementation. The driver never looks
      inside it; it only passes it on. */
  datatype BusError = BusError(code: int)

  /** The outcome of a bus call or of a driver operation. */
  datatype Result<T> = Ok(value: T) | Err(error: BusError)

  /** One call made on the bus: a plain write of `bytes` to the device at
      `address`, or a write of `bytes` followed, in the same transaction, by
      a read of `readLength` bytes. */
  datatype Transaction =
    | Write(address: bv8, bytes: seq<bv8>)
    | WriteRead(address: bv8, bytes: seq<bv8>, readLength: nat)

  /** How the bus and the devices on it answer: `status(n)` is the outcome
      of the n-th transaction (counting from 0) and `data(n, k)` the k-th
      byte clocked in during it. */
  datatype Replies = Replies(status: nat -> Result<()>, data: (nat, nat) -> bv8)

  /** The first `length` bytes received during the n-th transaction. */
  function Received(replies: Replies, n: nat, length: nat): (bytes: seq<bv8>)
    ensures |bytes| == length
    ensures forall k :: 0 <= k < length ==> bytes[k] == replies.data(n, k)
  {
    seq(length, k requires 0 <= k < length => replies.data(n, k))
  }

  class Bus {
    /** Every transaction issued so far, oldest first. */
    var log: seq<Transaction>
    const replies: Replies

    constructor (replies: Replies)
      ensures log == [] && this.replies == replies
    {
      log := [];
      this.replies := replies;
    }

    /** `write(address, bytes)`: one transaction, its outcome taken from the script. */
    method Write(address: bv8, bytes: seq<bv8>) returns (r: Result<()>)
      modifies this
      ensures log == old(log) + [Transaction.Write(address, bytes)]
      ensures r == replies.status(|old(log)|)
    {
      r := replies.status(|log|);
      log := log + [Transaction.Write(address, bytes)];
    }

    /** `write_read(address, bytes, buffer)`: one transaction that, when it
        succeeds, fills the whole buffer with the bytes received. A failed
        transaction leaves the buffer as it was. */
    method WriteRead(address: bv8, bytes: seq<bv8>, buffer: array<bv8>) returns (r: Result<()>)
      modifies this, buffer
      ensures log == old(log) + [Transaction.WriteRead(address, bytes, buffer.Length)]
      ensures r == replies.status(|old(log)|)
      ensures buffer[..] == if r.Ok? then Received(replies, |old(log)|, buffer.Length) else old(buffer[..])
    {
      var n := |log|;
      r := replies.status(n);
      if r.Ok? {
        forall k | 0 <= k < buffer.Length {
          buffer[k] := replies.data(n, k);
        }
      }
      log := log + [Transaction.WriteRead(address, bytes, buffer.Length)];
    }
  }
}
