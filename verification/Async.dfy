/** The asynchronous client of redis/async.c, for ordinary commands: every accepted callback runs
    once, in order, with its own reply or with none when the context is torn down. */
module Async {
  import opened Options
  import opened CallbackLists
  import opened Resp
  import opened RespReader
  import opened RespScript

  /** What a callback may do with the context it is given. */
  datatype Action = Command(callback: Callback, text: string) | Disconnect | Free

  /** A callback that has been taken off the queue, with the reply it got. */
  datatype Finished = Finished(callback: Callback, reply: Option<Reply>)

  ghost function CallbacksOf(done: seq<Finished>): (cs: seq<Callback>)
    ensures |cs| == |done|
  {
    seq(|done|, i requires 0 <= i < |done| => done[i].callback)
  }

  /** The k-th callback may only get the k-th reply. */
  ghost predicate Paired(done: seq<Finished>, got: seq<Reply>) {
    forall i :: 0 <= i < |done| && done[i].reply.Some? ==> i < |got| && done[i].reply.value == got[i]
  }

  ghost predicate AllAnswered(done: seq<Finished>) { forall i :: 0 <= i < |done| ==> done[i].reply.Some? }

  lemma AnsweredMore(done: seq<Finished>, f: Finished)
    requires AllAnswered(done) && f.reply.Some?
    ensures AllAnswered(done + [f])
  {
  }

  /** Those that have a function to call. */
  ghost function Runs(done: seq<Finished>): seq<Finished> {
    if done == [] then [] else Runs(done[..|done| - 1]) + Run(done[|done| - 1])
  }

  ghost function Run(f: Finished): seq<Finished> { if f.callback.Function? then [f] else [] }

  lemma RunsMore(done: seq<Finished>, f: Finished)
    ensures Runs(done + [f]) == Runs(done) + Run(f)
  {
    assert (done + [f])[..|done|] == done;
  }

  lemma PairedMore(done: seq<Finished>, got: seq<Reply>, x: Reply)
    requires Paired(done, got)
    ensures Paired(done, got + [x])
  {
  }

  /** The first `n` replies in some text, and the text behind them. */
  ghost function FirstReplies(s: string, n: nat): Option<(seq<Reply>, string)> {
    if n == 0 then Some(([], s))
    else
      match FirstReplies(s, n - 1)
      case None => None
      case Some(r) => var o := ReadItem(r.1, 0); if o.Done? then Some((r.0 + [o.value], o.rest)) else None
  }

  /** The replies taken so far are the first of those in the bytes received. */
  ghost predicate Streamed(got: seq<Reply>, pending: string, stream: string) {
    FirstReplies(stream, |got|) == Some((got, pending))
  }

  lemma NothingStreamed()
    ensures Streamed([], "", "")
  {
  }

  lemma {:induction false} StreamedMore(got: seq<Reply>, pending: string, stream: string, data: string)
    requires Streamed(got, pending, stream)
    ensures Streamed(got, pending + data, stream + data)
    decreases |got|
  {
    hide ReadItem;
    if got != [] {
      var r := FirstReplies(stream, |got| - 1).value;
      FirstCount(stream, |got| - 1);
      StreamedMore(r.0, r.1, stream, data);
      ReadItemMore(r.1, data, 0);
    }
  }

  lemma {:induction false} FirstCount(s: string, n: nat)
    ensures FirstReplies(s, n).Some? ==> |FirstReplies(s, n).value.0| == n
    decreases n
  {
    if n > 0 { FirstCount(s, n - 1); }
  }

  lemma StreamedNext(got: seq<Reply>, pending: string, stream: string)
    requires Streamed(got, pending, stream)
    ensures var o := ReadItem(pending, 0); o.Done? ==> Streamed(got + [o.value], o.rest, stream)
  {
    hide ReadItem;
  }

  /** What has been taken and what is still to come is all there is. */
  lemma {:induction false} StreamedDrains(got: seq<Reply>, pending: string, stream: string)
    requires Streamed(got, pending, stream)
    ensures Drain(stream).replies == got + Drain(pending).replies && Drain(stream).flaw == Drain(pending).flaw
    decreases |got|
  {
    hide ReadItem;
    if got == [] {
      assert [] + Drain(pending).replies == Drain(pending).replies;
    } else {
      var r := FirstReplies(stream, |got| - 1).value;
      FirstCount(stream, |got| - 1);
      StreamedDrains(r.0, r.1, stream);
      var x := ReadItem(r.1, 0).value;
      assert got == r.0 + [x];
      assert r.0 + ([x] + Drain(pending).replies) == got + Drain(pending).replies;
    }
  }

  class AsyncContext {
    const reader: Reader
    const replies: CallbackList
    var obuf: string
    var err: bool
    var connected: bool
    var disconnecting: bool
    var freeing: bool
    var inCallback: bool
    /** redisFree has been called, or an assertion has failed. */
    var freed: bool
    var aborted: bool
    /** The calls of onDisconnect: whether it was told of success. */
    var told: seq<bool>

    /** How many callbacks have run. */
    var calls: nat

    /** What the callbacks do: any behaviour, depending on how many have run before. */
    const client: (nat, nat, Option<Reply>) -> seq<Action>

    ghost var accepted: seq<Callback>
    /** Callbacks taken off the queue, and those of them whose function has been called. */
    ghost var done: seq<Finished>
    ghost var ran: seq<Finished>
    ghost var got: seq<Reply>
    ghost var stream: string
    /** The commands accepted, one after the other, and what of them has been written. */
    ghost var issued: string
    ghost var sent: string

    ghost predicate Sound()
      reads this, replies, replies.footprint, reader, reader.rstack
    {
      && replies.Valid() && reader.Valid()
      && accepted == CallbacksOf(done) + replies.Contents()
      && issued == sent + obuf
      && Paired(done, got) && Streamed(got, reader.pending, stream)
    }

    /** Between two events. */
    ghost predicate Idle()
      reads this, replies, replies.footprint, reader, reader.rstack
    {
      && Sound() && !freed && !aborted && !inCallback && !freeing && !err && reader.err == None && told == []
      && |done| == |got| && AllAnswered(done) && ran == Runs(done)
    }

    /** After the context has been freed. */
    ghost predicate Ended()
      reads this, replies, replies.footprint, reader, reader.rstack
    {
      && Sound() && freed && !aborted && replies.Contents() == [] && ran == Runs(done)
      && told == (if connected then [freeing || !err] else [])
      && (!err && !freeing ==> AllAnswered(done))
    }

    /** The process has stopped at the assertion about spontaneous replies. */
    ghost predicate Aborted()
      reads this, replies, replies.footprint, reader, reader.rstack
    {
      && Sound() && aborted && |got| == |done| + 1 && !got[|done|].Error? && replies.Contents() == []
      && ran == Runs(done)
    }

    constructor (client: (nat, nat, Option<Reply>) -> seq<Action>)
      ensures Idle() && accepted == [] && stream == "" && issued == "" && !disconnecting && !connected
      ensures fresh(replies) && fresh(reader) && fresh(reader.rstack) && replies.footprint == {}
    {
      reader := new Reader();
      replies := new CallbackList();
      obuf, err, connected, disconnecting, freeing, inCallback := "", false, false, false, false, false;
      freed, aborted, told, calls := false, false, [], 0;
      this.client := client;
      accepted, done, ran, got, stream, issued, sent := [], [], [], [], "", "", "";
      new;
      NothingStreamed();
    }

    /** __redisAsyncCommand, for commands other than the publish/subscribe ones and MONITOR. */
    method AsyncCommand(callback: Callback, text: string) returns (ok: bool)
      requires Sound() && !freed
      modifies this`obuf, this`accepted, this`issued, replies, replies.footprint
      ensures Sound() && ok == !(disconnecting || freeing)
      ensures issued == old(issued) + if ok then text else ""
      ensures obuf == old(obuf) + if ok then text else ""
      ensures accepted == old(accepted) + if ok then [callback] else []
      ensures replies.Contents() == old(replies.Contents()) + if ok then [callback] else []
      ensures fresh(replies.footprint - old(replies.footprint))
    {
      hide RespReader.Reader.Valid, Streamed, Paired;
      if disconnecting || freeing {
        return false;
      }
      replies.Push(callback);
      obuf := obuf + text;
      accepted, issued := accepted + [callback], issued + text;
      return true;
    }

    /** The body of a callback. */
    method Act(actions: seq<Action>)
      requires Sound() && !freed && inCallback
      modifies this`obuf, this`accepted, this`issued, this`disconnecting, this`freeing, replies, replies.footprint
      ensures Sound()
      ensures old(disconnecting) ==> disconnecting
      ensures old(freeing) ==> freeing
      ensures old(accepted) <= accepted && old(replies.Contents()) <= replies.Contents() && old(issued) <= issued
      ensures old(disconnecting || freeing) ==>
                accepted == old(accepted) && issued == old(issued) && replies.Contents() == old(replies.Contents())
      ensures fresh(replies.footprint - old(replies.footprint))
    {
      hide RespReader.Reader.Valid, Streamed, Paired;
      for i := 0 to |actions|
        invariant Sound()
        invariant old(disconnecting) ==> disconnecting
        invariant old(freeing) ==> freeing
        invariant old(accepted) <= accepted && old(replies.Contents()) <= replies.Contents() && old(issued) <= issued
        invariant old(disconnecting || freeing) ==>
                    accepted == old(accepted) && issued == old(issued) && replies.Contents() == old(replies.Contents())
        invariant fresh(replies.footprint - old(replies.footprint))
      {
        match actions[i] {
          case Command(callback, text) =>
            var _ := AsyncCommand(callback, text);
          case Disconnect =>
            disconnecting := true;
          case Free =>
            freeing := true;
        }
      }
    }

    /** __redisRunCallback, for a callback that has just been taken off the queue. */
    method RunCallback(callback: Callback, reply: Option<Reply>)
      requires Sound() && !freed && !inCallback
      modifies this`obuf, this`accepted, this`issued, this`disconnecting, this`freeing, this`inCallback, this`calls,
               this`ran, replies, replies.footprint
      ensures Sound() && !inCallback && ran == old(ran) + Run(Finished(callback, reply))
      ensures old(disconnecting) ==> disconnecting
      ensures old(freeing) ==> freeing
      ensures callback == NoFunction ==> freeing == old(freeing)
      ensures old(accepted) <= accepted && old(replies.Contents()) <= replies.Contents() && old(issued) <= issued
      ensures old(disconnecting || freeing) ==>
                accepted == old(accepted) && issued == old(issued) && replies.Contents() == old(replies.Contents())
      ensures fresh(replies.footprint - old(replies.footprint))
    {
      hide RespReader.Reader.Valid, Streamed, Paired;
      if callback.Function? {
        inCallback := true;
        ran := ran + [Finished(callback, reply)];
        Act(client(calls, callback.privdata, reply));
        calls := calls + 1;
        inCallback := false;
      }
    }

    /** Nothing has been accepted or written. */
    twostate predicate Unwritten()
      reads this
    {
      issued == old(issued) && sent == old(sent)
    }

    /** __redisAsyncFree: what is still pending gets no reply, and nothing new is accepted. */
    method TearDown()
      requires Sound() && !freed && !aborted && !inCallback && (disconnecting || freeing) && told == []
      requires ran == Runs(done)
      requires !err && !freeing ==> replies.Contents() == [] && AllAnswered(done)
      modifies this, replies, replies.footprint
      ensures Ended() && accepted == old(accepted) && got == old(got) && stream == old(stream) && Unwritten()
      ensures done == old(done) + Unanswered(old(replies.Contents()))
      ensures old(disconnecting) ==> disconnecting
      ensures err == old(err) && connected == old(connected) && fresh(replies.footprint - old(replies.footprint))
    {
      hide RespReader.Reader.Valid, Streamed, Paired, Unanswered, CallbacksOf, AllAnswered, Runs;
      ghost var answered := done;
      NoneUnanswered(replies.Contents());
      assert answered + [] == answered;
      RunPending();
      if connected {
        told := told + [freeing || !err];
      }
      freed := true;
    }

    /** Its loop over the pending callbacks. */
    method RunPending()
      requires Sound() && !freed && !inCallback && (disconnecting || freeing) && ran == Runs(done)
      modifies this`obuf, this`accepted, this`issued, this`disconnecting, this`freeing, this`inCallback, this`calls, this`done,
               this`ran, replies, replies.footprint
      ensures Sound() && !inCallback && replies.Contents() == [] && accepted == old(accepted) && ran == Runs(done)
      ensures Unwritten()
      ensures done == old(done) + Unanswered(old(replies.Contents()))
      ensures old(freeing) ==> freeing
      ensures old(disconnecting) ==> disconnecting
      ensures fresh(replies.footprint - old(replies.footprint))
    {
      hide RespReader.Reader.Valid, Streamed, Paired, Unanswered, CallbacksOf, Runs;
      ghost var pending := replies.Contents();
      ghost var n := 0;
      NoneUnanswered(pending[..0]);
      assert pending[0..] == pending && done + [] == done;
      while true
        invariant Sound() && !freed && !inCallback && (disconnecting || freeing) && ran == Runs(done)
        invariant 0 <= n <= |pending| && replies.Contents() == pending[n..]
        invariant done == old(done) + Unanswered(pending[..n])
        invariant old(freeing) ==> freeing
        invariant old(disconnecting) ==> disconnecting
        invariant accepted == old(accepted) && Unwritten() && fresh(replies.footprint - old(replies.footprint))
        decreases |pending| - n
      {
        ghost var before := done;
        var cb := Take(None);
        if cb == None { break; }
        RunsMore(before, Finished(cb.value, None));
        UnansweredNext(old(done), pending, n);
        n := n + 1;
        RunCallback(cb.value, None);
      }
      assert pending[..n] == pending;
    }

    /** __redisAsyncDisconnect. Its assertion holds: without an error nothing is pending. */
    method DisconnectNow()
      requires Sound() && !freed && !aborted && !inCallback && told == [] && ran == Runs(done)
      requires !err ==> replies.Contents() == [] && disconnecting && AllAnswered(done)
      modifies this, replies, replies.footprint
      ensures Ended() && accepted == old(accepted) && got == old(got) && stream == old(stream) && Unwritten()
      ensures done == old(done) + Unanswered(old(replies.Contents()))
      ensures old(disconnecting) ==> disconnecting
      ensures err == old(err) && connected == old(connected) && fresh(replies.footprint - old(replies.footprint))
    {
      hide RespReader.Reader.Valid, Streamed, Paired, Unanswered;
      if !err {
        var ret := replies.Shift();
        assert ret == None;
        assert accepted == CallbacksOf(done) + replies.Contents();
      } else {
        disconnecting := true;
      }
      TearDown();
    }

    /** redisAsyncDisconnect, outside of callbacks. */
    method AsyncDisconnect()
      requires Idle()
      modifies this, replies, replies.footprint
      ensures if old(replies.Contents()) == [] then Ended() else Idle() && disconnecting
      ensures accepted == old(accepted) && done == old(done) && got == old(got) && stream == old(stream) && Unwritten()
      ensures fresh(replies.footprint - old(replies.footprint)) && connected == old(connected)
    {
      hide RespReader.Reader.Valid, Streamed, Paired, Unanswered;
      disconnecting := true;
      if replies.head == null {
        NoneUnanswered(replies.Contents());
        assert done + [] == done;
        DisconnectNow();
      }
    }

    /** redisAsyncFree, outside of callbacks. */
    method AsyncFree()
      requires Idle()
      modifies this, replies, replies.footprint
      ensures Ended() && accepted == old(accepted) && got == old(got) && stream == old(stream) && Unwritten()
      ensures done == old(done) + Unanswered(old(replies.Contents()))
      ensures fresh(replies.footprint - old(replies.footprint)) && connected == old(connected)
    {
      hide RespReader.Reader.Valid, Streamed, Paired, Unanswered;
      freeing := true;
      TearDown();
    }

    /** The next callback, if there is one, is off the queue, and gets `reply`. */
    method Take(ghost reply: Option<Reply>) returns (callback: Option<Callback>)
      requires Sound() && (reply.Some? ==> |done| < |got| && reply.value == got[|done|])
      modifies this`done, replies
      ensures Sound() && replies.footprint == old(replies.footprint)
      ensures if old(replies.Contents()) == [] then callback == None && done == old(done) && replies.Contents() == []
              else callback == Some(old(replies.Contents())[0]) && replies.Contents() == old(replies.Contents())[1..]
                   && done == old(done) + [Finished(old(replies.Contents())[0], reply)]
    {
      hide Streamed;
      ghost var queue := replies.Contents();
      callback := replies.Shift();
      if callback.Some? {
        ghost var before := done;
        done := done + [Finished(callback.value, reply)];
        assert CallbacksOf(done) == CallbacksOf(before) + [queue[0]];
        assert CallbacksOf(before) + queue == CallbacksOf(done) + queue[1..];
      }
    }

    /** What a step of the event loop may do to the record of the past. */
    twostate predicate Grown()
      reads this
    {
      && old(accepted) <= accepted && old(done) <= done && old(got) <= got
      && (old(disconnecting) ==> disconnecting && accepted == old(accepted) && issued == old(issued))
      && old(issued) <= issued && old(sent) <= sent
    }

    /** redisProcessCallbacks: it stops when the replies that are complete have been dealt with. */
    method ProcessCallbacks()
      requires Idle()
      modifies this, replies, replies.footprint, reader, reader.rstack
      ensures Idle() || Ended() || Aborted()
      ensures Grown() && stream == old(stream) && connected == old(connected)
      ensures fresh(replies.footprint - old(replies.footprint))
      ensures Idle() ==> ReadItem(reader.pending, 0) == Need
      ensures Idle() ==> !(disconnecting && obuf == "" && replies.Contents() == [])
      ensures sent == old(sent)
    {
      hide RespReader.Reader.Valid, Streamed, Paired, Unanswered, CallbacksOf, ReadItem;
      while true
        invariant Idle() && Grown() && stream == old(stream) && connected == old(connected) && sent == old(sent)
        invariant fresh(replies.footprint - old(replies.footprint))
        decreases |reader.pending|
      {
        var reply := GetReply();
        if err { break; }
        if reply == None {
          if disconnecting && obuf == "" && replies.head == null {
            DisconnectNow();
          }
          return;
        }
        var stop := Deliver(reply.value);
        if stop { return; }
      }
      DisconnectNow();
    }

    /** A reply has been taken and not been given to anyone yet. */
    ghost predicate Owing(reply: Reply)
      reads this, replies, replies.footprint, reader, reader.rstack
    {
      && Sound() && !freed && !aborted && !inCallback && !freeing && !err && reader.err == None && told == []
      && got != [] && |done| == |got| - 1 && got[|done|] == reply
      && AllAnswered(done) && ran == Runs(done)
    }

    /** The callback of a reply runs; without one, the reply must be an error from the server. */
    method Deliver(reply: Reply) returns (stop: bool)
      requires Owing(reply)
      modifies this, replies, replies.footprint
      ensures if stop then Ended() || Aborted() else Idle()
      ensures aborted <==> old(replies.Contents()) == [] && !reply.Error?
      ensures Grown() && stream == old(stream) && connected == old(connected) && got == old(got) && sent == old(sent)
      ensures fresh(replies.footprint - old(replies.footprint))
    {
      hide RespReader.Reader.Valid, Streamed, Paired, Unanswered, CallbacksOf, Runs, AllAnswered;
      ghost var before := done;
      var cb := Take(Some(reply));
      if cb == None {
        if reply.Error? {
          err := true;
          DisconnectNow();
        } else {
          aborted := true;
        }
        return true;
      }
      RunsMore(before, Finished(cb.value, Some(reply)));
      AnsweredMore(before, Finished(cb.value, Some(reply)));
      stop := Answer(cb.value, reply);
    }

    method Answer(callback: Callback, reply: Reply) returns (stop: bool)
      requires Sound() && !freed && !aborted && !inCallback && !freeing && !err && reader.err == None && told == []
      requires |done| == |got| && AllAnswered(done) && ran + Run(Finished(callback, Some(reply))) == Runs(done)
      modifies this, replies, replies.footprint
      ensures !aborted && if stop then Ended() else Idle()
      ensures Grown() && stream == old(stream) && connected == old(connected) && got == old(got) && sent == old(sent)
      ensures fresh(replies.footprint - old(replies.footprint))
    {
      hide RespReader.Reader.Valid, Streamed, Paired, Unanswered, CallbacksOf, Runs, AllAnswered;
      if callback.Function? {
        RunCallback(callback, Some(reply));
        if freeing {
          TearDown();
          return true;
        }
      } else {
        assert ran + [] == ran;
      }
      return false;
    }

    /** redisGetReply: the next reply that is complete, if any; or the error of the reader. */
    method GetReply() returns (reply: Option<Reply>)
      requires Idle()
      modifies this`err, this`got, reader, reader.rstack
      ensures Sound() && got == old(got) + if reply.Some? then [reply.value] else []
      ensures if err then reply == None
              else if reply == None then Idle() && ReadItem(reader.pending, 0) == Need
              else Owing(reply.value)
      ensures reply.Some? ==> |reader.pending| < old(|reader.pending|)
    {
      hide RespReader.Reader.Valid, Streamed, Paired, ReadItem;
      ghost var pending := reader.pending;
      StreamedNext(got, pending, stream);
      var ok;
      ok, reply := reader.GetReply();
      if !ok {
        err := true;
        return None;
      }
      if reply.Some? {
        PairedMore(done, got, reply.value);
        got := got + [reply.value];
      }
    }

    /** __redisAsyncHandleConnect, with what the socket says. */
    method HandleConnect(socket: SocketState) returns (ok: bool)
      requires Idle() && !connected
      modifies this, replies, replies.footprint
      ensures if ok then Idle() && connected == (socket == Established) else Ended() && socket == Refused
      ensures Grown() && stream == old(stream) && got == old(got) && reader.pending == old(reader.pending)
      ensures accepted == old(accepted) && Unwritten() && (ok ==> obuf == old(obuf))
      ensures fresh(replies.footprint - old(replies.footprint))
    {
      hide RespReader.Reader.Valid, Streamed, Paired, Unanswered, CallbacksOf, AllAnswered, Runs;
      if socket == InProgress { return true; }
      if socket == Refused {
        err := true;
        DisconnectNow();
        return false;
      }
      connected := true;
      return true;
    }

    /** redisAsyncHandleRead: some bytes have arrived, or none ever will again. */
    method HandleRead(socket: SocketState, input: Option<string>)
      requires Idle()
      modifies this, replies, replies.footprint, reader, reader.rstack
      ensures Idle() || Ended() || Aborted()
      ensures Grown() && (stream == old(stream) || (input.Some? && stream == old(stream) + input.value))
      ensures fresh(replies.footprint - old(replies.footprint))
      ensures Idle() && stream != old(stream) ==> ReadItem(reader.pending, 0) == Need
      ensures Idle() && stream != old(stream) ==> !(disconnecting && obuf == "" && replies.Contents() == [])
      ensures sent == old(sent)
    {
      hide RespReader.Reader.Valid, Streamed, Paired, Unanswered, CallbacksOf, AllAnswered, Runs, ReadItem;
      if !connected {
        var ok := HandleConnect(socket);
        if !ok { return; }
        if !connected { return; }
      }
      if input == None {
        err := true;
        DisconnectNow();
      } else {
        Receive(input.value);
        ProcessCallbacks();
      }
    }

    method Receive(data: string)
      requires Idle()
      modifies this`stream, reader
      ensures Idle() && stream == old(stream) + data
    {
      hide RespReader.Reader.Valid, Streamed, Paired, CallbacksOf, AllAnswered;
      StreamedMore(got, reader.pending, stream, data);
      var _ := reader.Feed(data);
      stream := stream + data;
    }

    /** redisAsyncHandleWrite: some bytes have been written, or no more can be. */
    method HandleWrite(socket: SocketState, written: Option<nat>)
      requires Idle() && (written.Some? ==> written.value <= |obuf|)
      modifies this, replies, replies.footprint
      ensures Idle() || Ended()
      ensures Grown() && stream == old(stream) && fresh(replies.footprint - old(replies.footprint))
      ensures issued == old(issued) && accepted == old(accepted)
      ensures if Idle() && connected && written.Some?
              then sent == old(sent) + old(obuf)[..written.value] && obuf == old(obuf)[written.value..]
              else Unwritten() && (Idle() ==> obuf == old(obuf))
    {
      hide RespReader.Reader.Valid, Streamed, Paired, Unanswered, CallbacksOf, AllAnswered, Runs;
      if !connected {
        var ok := HandleConnect(socket);
        if !ok { return; }
        if !connected { return; }
      }
      if written == None {
        err := true;
        DisconnectNow();
      } else {
        sent := sent + obuf[..written.value];
        obuf := obuf[written.value..];
      }
    }

    /** Conservation: callbacks run in the order they were accepted, each once, the k-th with the
        k-th reply in the bytes received or with none; in the end none is left out. */
    lemma Conserved()
      requires Sound()
      ensures CallbacksOf(done) <= accepted
      ensures Ended() ==> CallbacksOf(done) == accepted
      ensures forall k :: 0 <= k < |done| && done[k].reply.Some? ==>
                k < |Drain(stream).replies| && done[k].reply.value == Drain(stream).replies[k]
      ensures Ended() && !err && !freeing ==> forall k :: 0 <= k < |done| ==> done[k].reply.Some?
      ensures sent + obuf == issued
    {
      hide RespReader.Reader.Valid, Streamed, Drain;
      StreamedDrains(got, reader.pending, stream);
      if replies.Contents() == [] { assert CallbacksOf(done) + [] == CallbacksOf(done); }
    }
  }

  // ---------------------------------------------------------------- runs

  /** What can happen to a context from outside of its callbacks. */
  datatype Event =
    | Issue(callback: Callback, text: string)
    | Leave
    | Release
    | Readable(socket: SocketState, input: Option<string>)
    | Writable(socket: SocketState, written: nat, failed: bool)

  /** Any run: the client and the event loop use the context until it is gone. */
  method Live(events: seq<Event>, client: (nat, nat, Option<Reply>) -> seq<Action>) returns (ac: AsyncContext)
    ensures fresh(ac) && (ac.Idle() || ac.Ended() || ac.Aborted())
    ensures events != [] && events[|events| - 1] == Release ==> ac.Ended() || ac.Aborted()
  {
    ac := new AsyncContext(client);
    for i := 0 to |events|
      invariant fresh(ac) && fresh(ac.replies) && fresh(ac.replies.footprint)
      invariant fresh(ac.reader) && fresh(ac.reader.rstack)
      invariant ac.Idle() || ac.Ended() || ac.Aborted()
      invariant i > 0 && events[i - 1] == Release ==> ac.Ended() || ac.Aborted()
    {
      if !ac.freed && !ac.aborted {
        Handle(ac, events[i]);
      }
    }
  }

  method Handle(ac: AsyncContext, event: Event)
    requires ac.Idle()
    modifies ac, ac.replies, ac.replies.footprint, ac.reader, ac.reader.rstack
    ensures ac.Idle() || ac.Ended() || ac.Aborted()
    ensures event == Release ==> ac.Ended()
    ensures fresh(ac.replies.footprint - old(ac.replies.footprint))
  {
    hide RespReader.Reader.Valid, Streamed, Paired, Unanswered, CallbacksOf, Runs, AllAnswered;
    match event {
      case Issue(callback, text) => var _ := ac.AsyncCommand(callback, text);
      case Leave => ac.AsyncDisconnect();
      case Release => ac.AsyncFree();
      case Readable(socket, input) => ac.HandleRead(socket, input);
      case Writable(socket, written, failed) =>
        var n := if written <= |ac.obuf| then written else |ac.obuf|;
        ac.HandleWrite(socket, if failed then None else Some(n));
    }
  }

  datatype SocketState = Established | InProgress | Refused

  ghost function Unanswered(cs: seq<Callback>): (fs: seq<Finished>)
    ensures |fs| == |cs|
  {
    seq(|cs|, i requires 0 <= i < |cs| => Finished(cs[i], None))
  }

  lemma UnansweredNext(done: seq<Finished>, cs: seq<Callback>, n: nat)
    requires n < |cs|
    ensures done + Unanswered(cs[..n]) + [Finished(cs[n], None)] == done + Unanswered(cs[..n + 1])
    ensures cs[n..][1..] == cs[n + 1..]
  {
    assert Unanswered(cs[..n + 1]) == Unanswered(cs[..n]) + [Finished(cs[n], None)];
  }

  lemma NoneUnanswered(cs: seq<Callback>)
    ensures cs == [] ==> Unanswered(cs) == []
  {
  }
}
