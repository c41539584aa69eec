/**
 * The chat-completion service the navigator consults, seen from the caller:
 * every call either raises, or returns a message whose content is a string or
 * null. The service is modelled by the script of replies it will give, in call
 * order; a call past the end of the script fails.
 */
module Oracle {

  datatype Reply =
    | Content(text: string)  // `message.content` is a string
    | NoContent              // `message.content` is None
    | CallFailed             // the call itself raised

  /** The reply to the next call when `rs` are the replies still to come. */
  function Next(rs: seq<Reply>): (r: Reply)
    ensures |rs| == 0 ==> r == CallFailed
    ensures |rs| > 0 ==> r == rs[0]
  {
    if |rs| == 0 then CallFailed else rs[0]
  }

  /** The replies still to come after `n` more calls. */
  function Drop(rs: seq<Reply>, n: nat): (r: seq<Reply>)
    ensures n <= |rs| ==> |r| == |rs| - n
    ensures n >= |rs| ==> r == []
    ensures forall i :: 0 <= i < |r| ==> r[i] == rs[n + i]
  {
    if n <= |rs| then rs[n..] else []
  }

  /** Making `a` calls and then `b` more is making `a + b` calls. */
  lemma DropDrop(rs: seq<Reply>, a: nat, b: nat)
    ensures Drop(Drop(rs, a), b) == Drop(rs, a + b)
  {
  }

  /** The `k`-th call (from 0) answers with the `k`-th reply of the script. */
  lemma NextAfter(rs: seq<Reply>, k: nat)
    ensures Next(Drop(rs, k)) == (if k < |rs| then rs[k] else CallFailed)
  {
  }

  /** The client object: a fixed script and the number of calls made so far. */
  class Client {
    const script: seq<Reply>
    var used: nat

    constructor(script: seq<Reply>)
      ensures this.script == script && used == 0
    {
      this.script := script;
      used := 0;
    }

    /** The replies the client will still give. */
    function Pending(): seq<Reply>
      reads this
    {
      Drop(script, used)
    }

    /** One `chat.completions.create` call. */
    method Complete() returns (r: Reply)
      modifies this
      ensures r == Next(old(Pending()))
      ensures used == old(used) + 1
    {
      r := Next(Drop(script, used));
      used := used + 1;
    }
  }
}
