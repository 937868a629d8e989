/** Completion of a download: there is a run to it exactly when the file has no more than
    65535 blocks. */
module TftpCompletion {
  import opened Options
  import opened TftpServer
  import opened TftpEndToEnd

  /** The server has counted a transfer to this client. */
  ghost predicate Counted(j: Job, w: World)
  {
    exists i :: 0 <= i < |w.server.completed| && w.server.completed[i].0 == j.me
  }

  /** The server has sent the very block the client waits for. */
  ghost predicate InStep(j: Job, w: World)
    requires j.Valid()
  {
    && WorldOk(j, w) && j.me in w.server.transfers && w.server.transfers[j.me].block == w.client.blocks + 1
    && w.client.blocks + 1 <= MAX_BLOCK
    && Sendable(w, Data(w.client.blocks + 1, Block(j.File(), j.Size(), w.client.blocks + 1)), j.me)
  }

  lemma SendBlockSends(s: Server, a: Addr, t: Transfer)
    requires t.block + 1 <= MAX_BLOCK
    ensures var s' := SendBlock(s, a, t);
            && a in s'.transfers && s'.transfers[a].block == t.block + 1 && |s'.log| > 0
            && s'.log[|s'.log| - 1]
               == Tracked(a, t.id, t.block + 1, Data(t.block + 1, Block(t.data, t.blocksize, t.block + 1)))
  {
    hide Block;
  }

  lemma SentNow(s: Server, c: Client, a: Addr, p: Packet)
    requires |s.log| > 0 && s.log[|s.log| - 1].to == a && s.log[|s.log| - 1].packet == p
    ensures Sendable(World(s, c), p, a)
  {
  }

  /** An acknowledgement that makes the server send the next block. */
  lemma AckSends(j: Job, w: World, n: nat)
    requires j.Valid() && WorldOk(j, w) && Ack(n) in w.client.log && j.me in w.server.transfers
    requires n == w.server.transfers[j.me].block == w.client.blocks && n + 1 <= MAX_BLOCK
    requires n == 0 || !w.server.transfers[j.me].complete
    ensures InStep(j, Next(j, w, ToServer(Ack(n))))
  {
    hide WorldOk, Block, Disarm, SendBlock, Sendable;
    var s, w' := w.server, Next(j, w, ToServer(Ack(n)));
    var t := s.transfers[j.me];
    assert t.data == j.File() && t.blocksize == j.Size() by { OfJob(j, w); }
    StepKeeps(j, w, ToServer(Ack(n)));
    if n == 0 {
      SendBlockSends(s, j.me, t.(retries := 0));
    } else {
      SendBlockSends(s.(armed := Disarm(s.armed, t)), j.me, t.(retries := 0, timer := None));
    }
    SentNow(w'.server, w'.client, j.me, Data(n + 1, Block(t.data, t.blocksize, n + 1)));
  }

  lemma OfJob(j: Job, w: World)
    requires j.Valid() && WorldOk(j, w) && j.me in w.server.transfers
    ensures var t := w.server.transfers[j.me];
            && t.data == j.File() && t.blocksize == j.Size() && t.block <= j.Last()
            && (t.complete <==> t.block == j.Last() && t.block <= MAX_BLOCK)
    ensures w.client.done <==> w.client.blocks == j.Last()
  {
  }

  /** The block arrives at the client. */
  lemma BlockArrives(j: Job, w: World) returns (w': World)
    requires j.Valid() && InStep(j, w)
    ensures var n := w.client.blocks + 1;
            var p := ToClient(Data(n, Block(j.File(), j.Size(), n)));
            && Can(j, w, p) && w' == Next(j, w, p) && WorldOk(j, w') && w'.server == w.server
            && w'.client.blocks == n && Ack(n) in w'.client.log
  {
    hide WorldOk, Block, Sendable, Job.Last;
    var n := w.client.blocks + 1;
    var p := ToClient(Data(n, Block(j.File(), j.Size(), n)));
    OfJob(j, w);
    StepKeeps(j, w, p);
    w' := Next(j, w, p);
    assert w'.client.log[|w'.client.log| - 1] == Ack(n);
  }

  lemma CountsNow(j: Job, w: World, n: nat)
    requires j.Valid() && j.me in w.server.transfers && w.server.transfers[j.me].complete
    requires n > 0 && w.server.transfers[j.me].block == n && Ack(n) in w.client.log
    ensures Counted(j, Next(j, w, ToServer(Ack(n))))
  {
    var s := OnAck(w.server, j.me, n);
    assert s.completed[|s.completed| - 1].0 == j.me;
  }

  lemma ReachesTwo(j: Job, w: World, a: Action, b: Action, acts: seq<Action>, w': World)
    requires j.Valid() && Can(j, w, a) && Can(j, Next(j, w, a), b)
    requires Reaches(j, Next(j, Next(j, w, a), b), acts, w')
    ensures Reaches(j, w, [a, b] + acts, w')
  {
    hide Can, Next;
    assert ([a, b] + acts)[1..] == [b] + acts;
    assert ([b] + acts)[1..] == acts;
    assert Reaches(j, Next(j, w, a), [b] + acts, w');
  }

  lemma ReachesNone(j: Job, w: World)
    requires j.Valid()
    ensures Reaches(j, w, [], w)
  {
  }

  /** Block by block to the end. */
  lemma {:induction false} Finishes(j: Job, w: World) returns (acts: seq<Action>, w': World)
    requires j.Valid() && InStep(j, w) && j.Last() <= MAX_BLOCK
    ensures Reaches(j, w, acts, w') && Counted(j, w')
    decreases j.Last() - w.client.blocks
  {
    hide WorldOk, Block, Sendable, OnAck, Counted, Job.Last, Job.File, Job.Size;
    var n := w.client.blocks + 1;
    var p := ToClient(Data(n, Block(j.File(), j.Size(), n)));
    OfJob(j, w);
    var w1 := BlockArrives(j, w);
    var w2 := Next(j, w1, ToServer(Ack(n)));
    if n == j.Last() {
      CountsNow(j, w1, n);
      acts, w' := [], w2;
    } else {
      AckSends(j, w1, n);
      acts, w' := Finishes(j, w2);
    }
    ReachesTwo(j, w, p, ToServer(Ack(n)), acts, w');
    acts := [p, ToServer(Ack(n))] + acts;
  }

  /** The request, and with it the first block or the option acknowledgement. */
  lemma Begins(j: Job) returns (acts: seq<Action>, w: World)
    requires j.Valid()
    ensures Reaches(j, START, acts, w) && InStep(j, w)
  {
    hide Block, Job.Last, WorldOk;
    var asked := Next(j, START, Ask);
    StartOk(j);
    StepKeeps(j, START, Ask);
    assert Can(j, asked, ToServer(Rrq(j.req)));
    var served := Next(j, asked, ToServer(Rrq(j.req)));
    StepKeeps(j, asked, ToServer(Rrq(j.req)));
    if j.req.blksize.None? {
      SentNow(served.server, served.client, j.me, Data(1, Block(j.File(), j.Size(), 1)));
      acts, w := [], served;
    } else {
      SentNow(served.server, served.client, j.me, Oack(j.Size()));
      acts, w := Settles(j, served);
    }
    ReachesTwo(j, START, Ask, ToServer(Rrq(j.req)), acts, w);
    acts := [Ask, ToServer(Rrq(j.req))] + acts;
  }

  /** The option acknowledgement and the answer to it. */
  lemma Settles(j: Job, w: World) returns (acts: seq<Action>, w': World)
    requires j.Valid() && WorldOk(j, w) && Sendable(w, Oack(j.Size()), j.me) && w.client.blocks == 0
    requires j.me in w.server.transfers && w.server.transfers[j.me].block == 0
    ensures Reaches(j, w, acts, w') && InStep(j, w')
  {
    hide Block, Job.Last, WorldOk, Sendable;
    var p := ToClient(Oack(j.Size()));
    StepKeeps(j, w, p);
    var w1 := Next(j, w, p);
    assert w1.client.log[|w1.client.log| - 1] == Ack(0);
    AckSends(j, w1, 0);
    acts, w' := [], Next(j, w1, ToServer(Ack(0)));
    ReachesTwo(j, w, p, ToServer(Ack(0)), acts, w');
    acts := [p, ToServer(Ack(0))] + acts;
  }

  lemma {:induction false} ReachesMore(j: Job, w: World, xs: seq<Action>, w1: World, ys: seq<Action>, w2: World)
    requires j.Valid() && Reaches(j, w, xs, w1) && Reaches(j, w1, ys, w2)
    ensures Reaches(j, w, xs + ys, w2)
    decreases |xs|
  {
    hide Can, Next;
    if xs == [] {
      assert xs + ys == ys;
    } else {
      assert (xs + ys)[0] == xs[0] && (xs + ys)[1..] == xs[1..] + ys;
      ReachesMore(j, Next(j, w, xs[0]), xs[1..], w1, ys, w2);
    }
  }

  /** A run on which the server counts the transfer, and the client has the file. */
  lemma Completes(j: Job) returns (acts: seq<Action>, w: World)
    requires j.Valid() && j.Last() <= 65535
    ensures Reaches(j, START, acts, w) && Counted(j, w) && w.client.done && w.client.bytes == j.File()
  {
    hide Reaches, InStep, Job.Last;
    var first, w1 := Begins(j);
    var rest, w2 := Finishes(j, w1);
    ReachesMore(j, START, first, w1, rest, w2);
    acts, w := first + rest, w2;
    var i :| 0 <= i < |w.server.completed| && w.server.completed[i].0 == j.me;
    CompleteMeansDelivered(j, acts, w, i);
  }

  ghost predicate CanComplete(j: Job)
    requires j.Valid()
  {
    exists acts, w :: Reaches(j, START, acts, w) && Counted(j, w)
  }

  /** Completion can be reached exactly when the file, with its closing short block, has
      no more than 65535 blocks. */
  lemma CompletesIff(j: Job)
    requires j.Valid()
    ensures CanComplete(j) <==> j.Last() <= 65535
  {
    hide Reaches, Job.Last;
    if j.Last() <= MAX_BLOCK {
      var acts, w := Completes(j);
    } else if CanComplete(j) {
      var acts, w :| Reaches(j, START, acts, w) && Counted(j, w);
      var i :| 0 <= i < |w.server.completed| && w.server.completed[i].0 == j.me;
      CompleteMeansDelivered(j, acts, w, i);
    }
  }
}
