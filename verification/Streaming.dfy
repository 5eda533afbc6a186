/**
 Delivery of a streamed response body: each pull calls back into the guest until
 its room is full, the content length is reached, or the guest makes no progress.
 The guest may answer every callback differently; its answers are a function of
 the whole history of requests.
 */
module Streaming {
  import opened GuestMemory

  /** The arguments of one callback. */
  datatype Request = Request(argument: nat, maxLen: nat, written: nat, contentLength: nat)

  /** The callback failed, or returned the address of data in guest memory and its length. */
  datatype Answer = Exception | Data(bytes: Bytes)

  type Guest = seq<Request> -> Answer

  datatype Status = OK | END | ERROR

  /** The bytes copied out for the latest request of a history: at most what was asked for. */
  function Piece(guest: Guest, history: seq<Request>): Bytes
    requires history != []
  {
    var max := history[|history| - 1].maxLen;
    match guest(history)
    case Exception => []
    case Data(bytes) => if |bytes| < max then bytes else bytes[..max]
  }

  /** Everything delivered so far, in order. */
  function Delivered(guest: Guest, history: seq<Request>): Bytes {
    if history == [] then [] else Delivered(guest, history[..|history| - 1]) + Piece(guest, history)
  }

  /** Every callback was told exactly how many bytes had been delivered before it. */
  ghost predicate Informed(guest: Guest, history: seq<Request>, argument: nat, contentLength: nat) {
    history != [] ==>
      var before, last := history[..|history| - 1], history[|history| - 1];
      && Informed(guest, before, argument, contentLength)
      && last == Request(argument, last.maxLen, |Delivered(guest, before)|, contentLength)
  }

  lemma {:induction false} InformedAt(guest: Guest, history: seq<Request>, argument: nat, contentLength: nat, i: nat)
    requires Informed(guest, history, argument, contentLength) && i < |history|
    ensures history[i] == Request(argument, history[i].maxLen, |Delivered(guest, history[..i])|, contentLength)
  {
    if i < |history| - 1 {
      var before := history[..|history| - 1];
      InformedAt(guest, before, argument, contentLength, i);
      assert before[..i] == history[..i];
    }
  }

  class StreamEntry {
    const contentLength: nat
    const argument: nat
    var delivered: nat
    var history: seq<Request>

    ghost predicate Valid(guest: Guest)
      reads this
    {
      delivered == |Delivered(guest, history)| && Informed(guest, history, argument, contentLength)
    }

    constructor (contentLength: nat, argument: nat, ghost guest: Guest)
      ensures this.contentLength == contentLength && this.argument == argument
      ensures history == [] && delivered == 0 && Valid(guest)
    {
      this.contentLength, this.argument := contentLength, argument;
      delivered, history := 0, [];
    }

    /** One callback; -1 where the guest raised an exception. */
    method StreamingDelivery(guest: Guest, max: nat, written: nat) returns (len: int, bytes: Bytes)
      modifies this`history
      ensures history == old(history) + [Request(argument, max, written, contentLength)]
      ensures bytes == Piece(guest, history) && |bytes| <= max
      ensures len == if guest(history).Exception? then -1 else |bytes|
    {
      history := history + [Request(argument, max, written, contentLength)];
      match guest(history)
      case Exception =>
        return -1, [];
      case Data(data) =>
        var n := if max < |data| then max else |data|;
        return n, data[..n];
    }

    /**
     One pull with room for `max` bytes. Whatever the guest answers, the call
     terminates, the bytes land one after the other, an OK pull is full, and END
     is returned only when the total equals the content length. A guest that has
     delivered too much can never end the stream.
     */
    method StreamingPull(guest: Guest, max: nat) returns (out: Bytes, status: Status)
      requires Valid(guest)
      modifies this
      ensures Valid(guest) && old(history) <= history
      ensures Delivered(guest, history) == Delivered(guest, old(history)) + out
      ensures delivered == old(delivered) + |out| && |out| <= max
      ensures status == END ==> delivered == contentLength
      ensures status == OK ==> |out| == max && delivered != contentLength
      ensures status == ERROR ==> |history| > |old(history)| && Piece(guest, history) == []
      ensures old(delivered) > contentLength ==> status != END
    {
      var room: nat := max;
      out := [];
      while true
        invariant Valid(guest) && old(history) <= history
        invariant Delivered(guest, history) == Delivered(guest, old(history)) + out
        invariant delivered == old(delivered) + |out| && room == max - |out|
        decreases room
      {
        ghost var before := history;
        var len, bytes := StreamingDelivery(guest, room, delivered);
        HistoryNext(guest, before, history[|history| - 1], argument, contentLength);
        if len <= 0 {
          assert Delivered(guest, history) == Delivered(guest, before) + [];
          return out, ERROR;
        }
        assert Delivered(guest, old(history)) + out + bytes == Delivered(guest, old(history)) + (out + bytes);
        out := out + bytes;
        delivered := delivered + len;
        if delivered == contentLength {
          return out, END;
        }
        room := room - len;
        if room == 0 {
          return out, OK;
        }
      }
    }
  }

  lemma HistoryNext(guest: Guest, history: seq<Request>, r: Request, argument: nat, contentLength: nat)
    requires Informed(guest, history, argument, contentLength)
    requires r == Request(argument, r.maxLen, |Delivered(guest, history)|, contentLength)
    ensures Informed(guest, history + [r], argument, contentLength)
    ensures Delivered(guest, history + [r]) == Delivered(guest, history) + Piece(guest, history + [r])
  {
    assert (history + [r])[..|history + [r]| - 1] == history;
  }

  /** What was delivered stays delivered: a longer history only appends. */
  lemma {:induction false} DeliveredGrows(guest: Guest, history: seq<Request>, n: nat)
    requires n <= |history|
    ensures Delivered(guest, history[..n]) <= Delivered(guest, history)
  {
    if n == |history| {
      assert history[..n] == history;
    } else {
      var shorter := history[..|history| - 1];
      DeliveredGrows(guest, shorter, n);
      assert shorter[..n] == history[..n];
    }
  }

  /** Once more than the content length was delivered, no later total equals it. */
  lemma OverrunNeverEnds(guest: Guest, history: seq<Request>, n: nat, contentLength: nat)
    requires n <= |history| && |Delivered(guest, history[..n])| > contentLength
    ensures |Delivered(guest, history)| != contentLength
  {
    DeliveredGrows(guest, history, n);
  }
}
