/** Peeking at the body of a non-2xx response and handing it on unread (pkg/non2xx_log.go). */
module Non2xx {
  import opened Text

  const PEEK_BYTES: nat := 4096

  /** What reading to the end yields: the bytes, then an error or the regular end. */
  datatype Stream = Stream(data: string, failure: Option<string>)

  /** A response body: what is left to read. After it has failed nothing is known about it. */
  class Body {
    var left: Stream

    constructor (left: Stream)
      ensures this.left == left
    {
      this.left := left;
    }

    /** Reads at most `n` bytes; the error is met only if the bytes run out before. */
    method ReadLimited(n: nat) returns (prefix: string, failure: Option<string>)
      modifies this
      ensures |old(left).data| >= n ==>
        prefix == old(left).data[..n] && failure == None && left == Stream(old(left).data[n..], old(left).failure)
      ensures |old(left).data| < n ==> prefix == old(left).data && failure == old(left).failure
      ensures |old(left).data| < n && failure == None ==> left == Stream("", None)
    {
      if |left.data| >= n {
        prefix, failure := left.data[..n], None;
        left := Stream(left.data[n..], left.failure);
      } else {
        prefix, failure := left.data, left.failure;
        left := Stream("", None);
      }
    }
  }

  /** The replacement body: a buffered prefix, then the original or a reader that only fails. */
  datatype Peeked = Peeked(prefix: string, rest: Body, failure: Option<string>) {
    function Read(): Stream
      reads rest
    {
      if failure.Some? then Stream(prefix, failure) else Stream(prefix + rest.left.data, rest.left.failure)
    }
  }

  /**
   Nothing happens for a 2xx. Otherwise one line is logged and the caller, reading the replaced
   body, gets exactly the bytes and the error the original would have given, from a bounded peek.
   */
  method LogNon2xxResponse(status: int, body: Option<Body>) returns (logged: bool, replaced: Option<Peeked>)
    modifies if body.Some? then {body.value} else {}
    ensures logged <==> status < 200 || status > 299
    ensures replaced.Some? <==> logged && body.Some?
    ensures replaced.Some? ==> replaced.value.Read() == old(body.value.left) && |replaced.value.prefix| <= PEEK_BYTES
    ensures replaced.Some? ==>
      |replaced.value.prefix| == if |old(body.value.left.data)| < 4096 then |old(body.value.left.data)| else 4096
    ensures !logged && body.Some? ==> body.value.left == old(body.value.left)
  {
    if 200 <= status <= 299 {
      return false, None;
    }
    if body.None? {
      return true, None;
    }
    var prefix, failure := body.value.ReadLimited(PEEK_BYTES);
    return true, Some(Peeked(prefix, body.value, failure));
  }
}
