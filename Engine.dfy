/**
 * The command dispatcher of the `Stockfish` class (src/index.ts): a FIFO
 * queue of commands, at most one of which is in flight, an output buffer
 * that accumulates the engine's chunks, and the completion test of the
 * command in flight, re-run on the whole buffer after every chunk.
 *
 * The child process is not modelled: writing to its input is the ghost log
 * `written`, an output chunk is a call of `Feed`, the process closing is a
 * call of `Close`, and a promise resolving is an entry of `resolved`, the
 * ticket of the command paired with the text it resolved with.
 */
module Engine {
  import opened Wrappers
  import opened Strings

  /** The identification line the engine prints on start-up. */
  const Banner: string := "Stockfish 11 64 POPCNT by T. Romstad, M. Costalba, J. Kiiski, G. Linscott"

  /** The text that ends the output of `eval`. */
  const EvalEnd: string := "Total evaluation:"

  /** A command's completion test over the output gathered so far. */
  datatype Done =
    | Contains(needle: string)  // `response.indexOf(needle) > -1`
    | Always                    // `() => true`

  /** Whether `done` accepts `response` as the complete reply. */
  predicate Accepts(done: Done, response: string)
  {
    match done
    case Contains(needle) => IndexOf(response, needle) > -1
    case Always => true
  }

  /** A queued command with its ticket; a `None` command only waits for output. */
  datatype Entry = Entry(id: nat, command: Option<string>, done: Done)

  /** The one failure of the dispatcher: a command issued after `quit()` completed. */
  datatype Failure = QuitCalled

  /**
   * What dispatching `e` writes to the engine: its command and `EOL`, or
   * nothing when the command is absent or empty (`if (current.command)`).
   */
  function Written(e: Entry): seq<string>
  {
    match e.command
    case Some(c) => if c != "" then [c + EOL] else []
    case None => []
  }

  /** What dispatching `es` in order writes. */
  function Writes(es: seq<Entry>): seq<string>
  {
    if es == [] then [] else Written(es[0]) + Writes(es[1..])
  }

  /** Writing two runs of entries writes the first run's commands, then the second's. */
  lemma {:induction false} WritesAppend(a: seq<Entry>, b: seq<Entry>)
    ensures Writes(a + b) == Writes(a) + Writes(b)
    decreases |a|
  {
    if a != [] {
      calc {
        Writes(a + b);
        Written((a + b)[0]) + Writes((a + b)[1..]);
        { assert (a + b)[0] == a[0] && (a + b)[1..] == a[1..] + b; }
        Written(a[0]) + Writes(a[1..] + b);
        { WritesAppend(a[1..], b); }
        Written(a[0]) + (Writes(a[1..]) + Writes(b));
      }
    } else {
      assert a + b == b;
    }
  }

  /** Every command that is present and non-empty is written, in order, and nothing else. */
  lemma {:induction false} WritesCommands(es: seq<Entry>)
    ensures |Writes(es)| <= |es|
    ensures (forall k :: 0 <= k < |es| ==> es[k].command.None?) ==> Writes(es) == []
    ensures (forall k :: 0 <= k < |es| ==> es[k].command.Some? && es[k].command.value != "") ==>
      Writes(es) == seq(|es|, k requires 0 <= k < |es| => es[k].command.value + EOL)
    decreases |es|
  {
    if es != [] {
      WritesCommands(es[1..]);
      if forall k :: 0 <= k < |es| ==> es[k].command.Some? && es[k].command.value != "" {
        assert forall k :: 0 <= k < |es[1..]| ==> es[1..][k] == es[k + 1];
      }
      if forall k :: 0 <= k < |es| ==> es[k].command.None? {
        assert forall k :: 0 <= k < |es[1..]| ==> es[1..][k] == es[k + 1];
      }
    }
  }

  /**
   * `Contains(needle)` accepts exactly the output in which `needle` occurs
   * (the banner for the start-up wait, `EvalEnd` for `eval`); `Always`
   * accepts any output, the first chunk included.
   */
  lemma AcceptsMeaning(done: Done, response: string)
    ensures done.Contains? ==> (Accepts(done, response) <==> Occurs(response, done.needle))
    ensures done.Always? ==> Accepts(done, response)
  {
  }

  /** A completion test that accepted some output still accepts it with more output after it. */
  lemma AcceptsAppend(done: Done, response: string, more: string)
    requires Accepts(done, response)
    ensures Accepts(done, response + more)
  {
    if done.Contains? {
      var i := IndexOf(response, done.needle);
      OccursAtExtend(response, more, done.needle, i);
    }
  }

  /** The banner test accepts any output that contains the banner. */
  lemma AcceptsBanner(before: string, after: string)
    ensures Accepts(Contains(Banner), before + Banner + after)
  {
    var s := before + Banner + after;
    assert s[|before|..|before| + |Banner|] == Banner;
    assert OccursAt(s, Banner, |before|);
  }

  class Stockfish {
    /** Commands waiting for the one in flight to complete, oldest first. */
    var queue: seq<Entry>
    /** A command is in flight. */
    var running: bool
    /** The command in flight, whose completion test sees the output. */
    var active: Option<Entry>
    /** The output gathered since the command in flight was dispatched. */
    var buffer: string
    /** `quit()` has completed. */
    var didQuit: bool
    /** The promises resolved so far: a ticket and the output it resolved with. */
    var resolved: seq<(nat, string)>
    /** The ticket of the next command. */
    var nextId: nat

    /** The text written to the engine's input, in order. */
    ghost var written: seq<string>
    /** Every command enqueued, in order; the ticket of each is its index. */
    ghost var issued: seq<Entry>
    /** The commands that have been put in flight, in order. */
    ghost var dispatched: seq<Entry>
    /** Tickets of `quit()` calls whose continuation has not run yet. */
    ghost var quitting: set<nat>

    /**
     * The bookkeeping that holds between steps and also in the middle of
     * `Do` and of a completion, where the queue may hold work while nothing
     * is in flight.
     */
    ghost predicate Coherent()
      reads this
    {
      && running == active.Some?
      && (!running ==> buffer == "")
      && nextId == |issued|
      && (forall i :: 0 <= i < |issued| ==> issued[i].id == i)
      && issued == dispatched + queue
      && written == Writes(dispatched)
      && (running ==> |dispatched| > 0 && active == Some(dispatched[|dispatched| - 1]))
      && |resolved| + (if running then 1 else 0) == |dispatched|
      && (forall i :: 0 <= i < |resolved| ==> resolved[i].0 == dispatched[i].id)
    }

    /** The object invariant: besides the bookkeeping, nothing waits while nothing is in flight. */
    ghost predicate Valid()
      reads this
    {
      Coherent() && (!running ==> queue == [])
    }

    /** The commands not yet resolved: the one in flight, then the queue. */
    function Pending(): seq<Entry>
      reads this
    {
      (if active.Some? then [active.value] else []) + queue
    }

    /**
     * The effect of enqueueing `command` with completion test `done` and
     * result `r`: after `quit()` has completed nothing changes and the call
     * fails; otherwise a new ticket joins the end of the pending commands,
     * and the command is written at once exactly when nothing was in flight.
     */
    twostate predicate Enqueued(command: Option<string>, done: Done, new r: Result<nat, Failure>)
      reads this
    {
      if old(didQuit) then
        && r == Err(QuitCalled)
        && queue == old(queue) && running == old(running) && active == old(active)
        && buffer == old(buffer) && didQuit == old(didQuit) && resolved == old(resolved)
        && nextId == old(nextId) && written == old(written) && issued == old(issued)
      else
        var e := Entry(old(nextId), command, done);
        && r == Ok(e.id)
        && issued == old(issued) + [e]
        && Pending() == old(Pending()) + [e]
        && (old(running) ==> queue == old(queue) + [e])
        && (!old(running) ==> queue == [])
        && running
        && (old(running) ==> active == old(active) && written == old(written))
        && (!old(running) ==> active == Some(e) && written == old(written) + Written(e))
        && buffer == old(buffer) && didQuit == old(didQuit) && resolved == old(resolved)
    }

    /**
     * The effect of the output chunk `chunk`: with nothing in flight it is
     * dropped; otherwise it joins the buffer and the completion test of the
     * command in flight sees the whole buffer. If the test rejects it,
     * nothing else changes. If it accepts, that command resolves with the
     * whole untrimmed buffer, the buffer is emptied and the next queued
     * command, if any, is put in flight and written.
     */
    twostate predicate Fed(chunk: string)
      reads this
    {
      && issued == old(issued) && nextId == old(nextId)
      && didQuit == old(didQuit) && quitting == old(quitting)
      && (old(active).None? ==>
            && queue == old(queue) && running == old(running) && active == old(active)
            && buffer == old(buffer) && resolved == old(resolved) && written == old(written))
      && (old(active).Some? && !Accepts(old(active).value.done, old(buffer) + chunk) ==>
            && buffer == old(buffer) + chunk
            && queue == old(queue) && running && active == old(active)
            && resolved == old(resolved) && written == old(written))
      && (old(active).Some? && Accepts(old(active).value.done, old(buffer) + chunk) ==>
            && resolved == old(resolved) + [(old(active).value.id, old(buffer) + chunk)]
            && buffer == ""
            && Pending() == old(Pending())[1..]
            && queue == (if old(queue) == [] then [] else old(queue)[1..])
            && running == (old(queue) != [])
            && written == old(written) + (if old(queue) == [] then [] else Written(old(queue)[0])))
    }

    /** A new session: it waits, without writing anything, for the engine's banner. */
    constructor ()
      ensures Valid()
      ensures issued == [Entry(0, None, Contains(Banner))]
      ensures running && active == Some(issued[0]) && queue == []
      ensures buffer == "" && !didQuit && resolved == [] && written == [] && quitting == {}
    {
      queue := [];
      running := false;
      active := None;
      buffer := "";
      didQuit := false;
      resolved := [];
      nextId := 0;
      written := [];
      issued := [];
      dispatched := [];
      quitting := {};
      new;
      var _ := Do(None, Contains(Banner));
    }

    /** `eval()`: send `eval` and wait for the line that ends its table. */
    method Eval() returns (r: Result<nat, Failure>)
      requires Valid()
      modifies this
      ensures Valid()
      ensures Enqueued(Some("eval"), Contains(EvalEnd), r)
      ensures quitting == old(quitting)
    {
      r := Do(Some("eval"), Contains(EvalEnd));
    }

    /**
     * `quit()`: send `quit`, complete on the first output, and then (in
     * `QuitResolved`) refuse every later command.
     */
    method Quit() returns (r: Result<nat, Failure>)
      requires Valid()
      modifies this
      ensures Valid()
      ensures Enqueued(Some("quit"), Always, r)
      ensures quitting == if r.Ok? then old(quitting) + {r.value} else old(quitting)
    {
      r := Do(Some("quit"), Always);
      if r.Ok? {
        quitting := quitting + {r.value};
      }
    }

    /** The continuation of `quit()` once its command has resolved: later commands fail. */
    method QuitResolved(id: nat)
      requires Valid()
      requires id in quitting && exists i :: 0 <= i < |resolved| && resolved[i].0 == id
      modifies this
      ensures Valid() && didQuit && quitting == old(quitting) - {id}
      ensures queue == old(queue) && running == old(running) && active == old(active)
      ensures buffer == old(buffer) && resolved == old(resolved) && nextId == old(nextId)
      ensures written == old(written) && issued == old(issued)
    {
      didQuit := true;
      quitting := quitting - {id};
    }

    /**
     * `do(command, done)`: fail after `quit()` has completed; otherwise
     * enqueue the command and try to dispatch.
     */
    method Do(command: Option<string>, done: Done) returns (r: Result<nat, Failure>)
      requires Valid()
      modifies this
      ensures Valid()
      ensures Enqueued(command, done, r)
      ensures quitting == old(quitting)
    {
      if didQuit {
        return Err(QuitCalled);
      }
      var e := Entry(nextId, command, done);
      queue := queue + [e];
      issued := issued + [e];
      nextId := nextId + 1;
      AdvanceQueue();
      r := Ok(e.id);
    }

    /**
     * `advanceQueue()`: with nothing in flight, put the oldest queued command
     * in flight and write it; while a command is in flight, do nothing.
     */
    method AdvanceQueue()
      requires Coherent()
      modifies this
      ensures Valid()
      ensures old(running) || old(queue) == [] ==>
        && queue == old(queue) && running == old(running) && active == old(active)
        && written == old(written) && dispatched == old(dispatched)
      ensures !old(running) && old(queue) != [] ==>
        && running && active == Some(old(queue)[0]) && queue == old(queue)[1..]
        && written == old(written) + Written(old(queue)[0])
        && dispatched == old(dispatched) + [old(queue)[0]]
      ensures buffer == old(buffer) && resolved == old(resolved) && didQuit == old(didQuit)
      ensures nextId == old(nextId) && issued == old(issued) && quitting == old(quitting)
    {
      if running {
        return;
      }
      if queue != [] {
        var current := queue[0];
        queue := queue[1..];
        running := true;
        active := Some(current);
        WritesAppend(dispatched, [current]);
        dispatched := dispatched + [current];
        assert Writes([current]) == Written(current) + Writes([]);
        written := written + Written(current);
      }
    }

    /**
     * `dataWritten(chunk)`: the engine printed `chunk`. Nothing listens while
     * no command is in flight. The source removes the stale listeners from
     * the process object rather than from its output stream; the model
     * gives each chunk to the command in flight only.
     */
    method Feed(chunk: string)
      requires Valid()
      modifies this
      ensures Valid()
      ensures Fed(chunk)
    {
      if !running {
        return;
      }
      var current := active.value;
      buffer := buffer + chunk;
      if Accepts(current.done, buffer) {
        resolved := resolved + [(current.id, buffer)];
        buffer := "";
        running := false;
        active := None;
        AdvanceQueue();
      }
    }

    /** The engine's process closed: its command in flight gets one last `EOL` chunk. */
    method Close()
      requires Valid()
      modifies this
      ensures Valid()
      ensures Fed(EOL)
    {
      Feed(EOL);
    }
  }

  /**
   * Commands reach the engine in the order they were enqueued: what has
   * been written, followed by what the queue will write, is what every
   * command enqueued so far writes.
   */
  lemma WritesFollowEnqueueOrder(s: Stockfish)
    requires s.Valid()
    ensures s.written + Writes(s.queue) == Writes(s.issued)
  {
    WritesAppend(s.dispatched, s.queue);
  }

  /** Promises resolve in ticket order: the i-th resolution is that of ticket i. */
  lemma ResolvedInTicketOrder(s: Stockfish)
    requires s.Valid()
    ensures forall i :: 0 <= i < |s.resolved| ==> s.resolved[i].0 == i
  {
    forall i | 0 <= i < |s.resolved| ensures s.resolved[i].0 == i {
      assert s.issued[i] == s.dispatched[i];
    }
  }

  /**
   * The scenario of "errors commands after quitting": a new session, `quit()`,
   * the banner arrives, the process closes, and `eval()` then fails. The
   * banner wait resolves with the banner chunk and, in this model, where
   * only the command in flight hears the close, `quit` resolves with the
   * single closing line feed. In Node the banner wait's close handler,
   * never removed, would run first and add a line feed of its own, so
   * `quit` would resolve with two.
   */
  method QuitThenEval() returns (r: Result<nat, Failure>, log: seq<(nat, string)>)
    ensures r == Err(QuitCalled)
    ensures log == [(0, Banner + EOL), (1, EOL)]
  {
    var engine := new Stockfish();
    var q := engine.Quit();
    assert q == Ok(1);
    assert engine.active == Some(Entry(0, None, Contains(Banner)));
    assert engine.Pending() == [Entry(0, None, Contains(Banner)), Entry(1, Some("quit"), Always)];
    assert engine.queue == engine.Pending()[1..];
    assert engine.buffer == "";
    AcceptsBanner("", EOL);
    assert "" + Banner + EOL == engine.buffer + (Banner + EOL);
    assert engine.resolved == [];
    engine.Feed(Banner + EOL);
    assert engine.resolved == [(0, Banner + EOL)];
    assert engine.Pending() == [Entry(1, Some("quit"), Always)];
    assert engine.active == Some(Entry(1, Some("quit"), Always));
    assert engine.buffer + EOL == EOL;
    engine.Close();
    assert engine.resolved == [(0, Banner + EOL), (1, EOL)];
    engine.QuitResolved(q.value);
    r := engine.Eval();
    log := engine.resolved;
  }
}
