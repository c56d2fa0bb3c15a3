/** Channels with a fixed delay, as values and as the objects that carry flits and credits. */
module Channels {

  datatype Option<T> = None | Some(value: T)

  /** `input` was sent in this cycle, `queue` holds what is on its way with its time of arrival,
      and `output` has arrived and not been received yet. */
  datatype Channel<T> = Channel(input: Option<T>, queue: seq<(int, T)>, output: Option<T>)

  function Empty<T>(): Channel<T> {
    Channel(None, [], None)
  }

  function ReadInputs<T>(ch: Channel<T>, now: int, delay: int): Channel<T> {
    if ch.input.Some? then ch.(input := None, queue := ch.queue + [(now + delay - 1, ch.input.value)])
    else ch
  }

  function WriteOutputs<T>(ch: Channel<T>, now: int): Channel<T> {
    if ch.queue == [] || now < ch.queue[0].0 then ch.(output := None)
    else ch.(output := Some(ch.queue[0].1), queue := ch.queue[1..])
  }

  function Opt<T>(o: Option<T>): seq<T> {
    if o.Some? then [o.value] else []
  }

  function Values<T>(q: seq<(int, T)>): (r: seq<T>)
    ensures |r| == |q| && forall i | 0 <= i < |q| :: r[i] == q[i].1
  {
    seq(|q|, i requires 0 <= i < |q| => q[i].1)
  }

  /** Everything on the channel, oldest first. */
  function Content<T>(ch: Channel<T>): seq<T> {
    Opt(ch.output) + Values(ch.queue) + Opt(ch.input)
  }

  /** Arrival times rise by at least one from entry to entry and lie in `[from, to]`. */
  ghost predicate Timed<T>(q: seq<(int, T)>, from: int, to: int) {
    && (forall i | 0 <= i < |q| :: from <= q[i].0 <= to)
    && (forall i, j | 0 <= i < j < |q| :: q[i].0 < q[j].0)
  }

  /** One cycle keeps the order of arrival times; whatever is due when outputs are written is due
      in exactly this cycle; and nothing is lost or reordered. */
  lemma ReadKeeps<T>(ch: Channel<T>, now: int, delay: int)
    requires Timed(ch.queue, now, now + delay - 2)
    requires delay > 0
    ensures Timed(ReadInputs(ch, now, delay).queue, now, now + delay - 1)
    ensures Content(ReadInputs(ch, now, delay)) == Content(ch) && ReadInputs(ch, now, delay).output == ch.output
    ensures ReadInputs(ch, now, delay).input == None
  {
    var r := ReadInputs(ch, now, delay);
    if ch.input.Some? {
      assert Values(r.queue) == Values(ch.queue) + [ch.input.value];
    }
  }

  lemma WriteKeeps<T>(ch: Channel<T>, now: int, delay: int)
    requires Timed(ch.queue, now, now + delay - 1) && ch.output == None
    ensures Timed(WriteOutputs(ch, now).queue, now + 1, now + delay - 1)
    ensures Content(WriteOutputs(ch, now)) == Content(ch)
    ensures ch.queue != [] && ch.queue[0].0 <= now ==> ch.queue[0].0 == now
  {
    var r := WriteOutputs(ch, now);
    if r.output.Some? {
      assert Values(ch.queue) == [ch.queue[0].1] + Values(r.queue);
    }
  }

  class DelayChannel<T> {
    const delay: int
    var input: Option<T>
    var output: Option<T>
    var waitQueue: seq<(int, T)>

    function Image(): Channel<T>
      reads this
    {
      Channel(input, waitQueue, output)
    }

    constructor (delay: int)
      requires delay > 0
      ensures this.delay == delay && Image() == Empty()
    {
      this.delay := delay;
      input, output, waitQueue := None, None, [];
    }

    method Send(data: T)
      modifies this`input
      ensures Image() == old(Image()).(input := Some(data))
    {
      input := Some(data);
    }

    method Read(now: int)
      requires delay > 0 && Timed(waitQueue, now, now + delay - 2)
      modifies this`input, this`waitQueue
      ensures Image() == ReadInputs(old(Image()), now, delay)
      ensures Timed(waitQueue, now, now + delay - 1) && Content(Image()) == old(Content(Image()))
    {
      ReadKeeps(Image(), now, delay);
      if input.Some? {
        waitQueue := waitQueue + [(now + delay - 1, input.value)];
        input := None;
      }
    }

    method Write(now: int)
      requires delay > 0 && Timed(waitQueue, now, now + delay - 1)
      modifies this`output, this`waitQueue
      ensures Image() == WriteOutputs(old(Image()), now)
      ensures Timed(waitQueue, now + 1, now + delay - 1)
    {
      output := None;
      if waitQueue == [] { return; }
      var item := waitQueue[0];
      if now < item.0 { return; }
      assert now == item.0;          // the arrival is never late
      output := Some(item.1);
      waitQueue := waitQueue[1..];
    }
  }
}
