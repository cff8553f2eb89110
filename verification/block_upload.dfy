/** Resumable upload of one file to Baidu Netdisk: the objects, in place. One `Upload` stands for one cache key, that is
    one access token and one content. */
module BlockUpload {

  import opened Slicing
  import opened UploadRuns

  /** The server has stored `data` as block `seqno` of the upload `uploadid`. */
  datatype Ack = Ack(uploadid: string, seqno: nat, data: string)

  /** A create request: the blocks the server had asked for under that id, the blocks the client still counts as
      unsent, and everything the server has stored. `late` marks a call whose second round expired as well. */
  datatype Create = Create(uploadid: string, required: set<nat>, unsent: set<nat>, acked: set<Ack>, late: bool)

  /** The server's answer to a precreate request. The program updates the block list in place; `wanted` is what it was
      at first. */
  class PrecreateResp {
    var uploadid: string
    var blockList: seq<int>
    ghost var wanted: seq<int>

    constructor (uploadid: string, blockList: seq<int>)
      ensures this.uploadid == uploadid && this.blockList == wanted == blockList
    {
      this.uploadid, this.blockList := uploadid, blockList;
      wanted := blockList;
    }
  }

  datatype Precreated =
    | Stopped
    | Rapid
    | Wanted(resp: PrecreateResp)

  /** What the progress cache holds under the key. A finished upload overwrites it with nil. */
  datatype Saved =
    | Absent
    | Finished
    | Progress(resp: PrecreateResp)

  predicate Within(count: nat, blockList: seq<int>) {
    forall b | b in blockList :: b < count
  }

  /** The server asks only for blocks the file has. */
  predicate Plausible(count: nat, answers: Answers) {
    && Answered(answers)
    && forall i | 0 <= i < 3 && answers.replies[i].Blocks? :: Within(count, answers.replies[i].blockList)
  }

  // ----- bytes -----

  /** Every stored block holds the bytes of its place in the file. */
  ghost predicate Right(content: string, slice: nat, acked: set<Ack>)
    requires slice > 0 && content != []
  {
    forall a | a in acked :: a.seqno < Count(|content|, slice) && a.data == Block(content, slice, a.seqno)
  }

  ghost function Pieces(acked: set<Ack>): set<Piece> {
    set a | a in acked :: Piece(a.uploadid, a.seqno)
  }

  lemma OneAck(content: string, slice: nat, acked: set<Ack>, uploadid: string, b: nat)
    requires slice > 0 && content != [] && b < Count(|content|, slice) && Right(content, slice, acked)
    ensures var acked' := acked + {Ack(uploadid, b, Block(content, slice, b))};
            Right(content, slice, acked') && Pieces(acked') == Pieces(acked) + {Piece(uploadid, b)}
  {
    hide Block, Count;
    var a := Ack(uploadid, b, Block(content, slice, b));
    assert a in acked + {a};
  }

  /** The bytes of the blocks are what the server gets. */
  lemma PieceAcked(content: string, slice: nat, acked: set<Ack>, p: Piece)
    requires slice > 0 && content != [] && Right(content, slice, acked) && p in Pieces(acked)
    ensures p.seqno < Count(|content|, slice) && Ack(p.uploadid, p.seqno, Block(content, slice, p.seqno)) in acked
  {
    hide Block, Count;
  }

  /** Which blocks the server has decides what it has. */
  lemma PiecesDecide(content: string, slice: nat, acked: set<Ack>, acked': set<Ack>)
    requires slice > 0 && content != [] && Right(content, slice, acked) && Right(content, slice, acked')
    ensures acked <= acked' <==> Pieces(acked) <= Pieces(acked')
  {
    hide Block, Count;
    if Pieces(acked) <= Pieces(acked') {
      forall a | a in acked ensures a in acked' {
        assert Piece(a.uploadid, a.seqno) in Pieces(acked');
      }
    }
  }

  lemma MarkedWithin(count: nat, blockList: seq<int>, fates: seq<Fate>, n: nat)
    requires n <= |fates| && Within(count, blockList)
    ensures Within(count, Marked(blockList, fates, n))
  {
    forall b | b in Marked(blockList, fates, n) ensures b < count {
      if b >= 0 {
        UnsentAfter(blockList, fates, n, b);
        assert b in blockList;
      }
    }
  }

  ghost predicate Sent(content: string, slice: nat, uploadid: string, blocks: set<nat>, acked: set<Ack>)
    requires slice > 0 && content != []
  {
    forall b | b in blocks :: b < Count(|content|, slice) && Ack(uploadid, b, Block(content, slice, b)) in acked
  }

  /** What a create request may look like. */
  ghost predicate Honest(content: string, slice: nat, c: Create)
    requires slice > 0 && content != []
  {
    if c.late then c.unsent == c.required
    else c.unsent == {} && Sent(content, slice, c.uploadid, c.required, c.acked)
  }

  /** What a create request claims, in bytes, follows from what is stored. */
  lemma CreateHonest(content: string, slice: nat, uploadid: string, wanted: seq<int>, blockList: seq<int>, late: bool, acked: set<Ack>)
    requires slice > 0 && content != [] && Right(content, slice, acked)
    requires Covered(uploadid, wanted, blockList, late, Pieces(acked))
    ensures Honest(content, slice, Create(uploadid, Unsent(wanted), Unsent(blockList), acked, late))
  {
    hide Block, Count, Right, Pieces;
    if !late {
      forall b: nat | b in wanted
        ensures b < Count(|content|, slice) && Ack(uploadid, b, Block(content, slice, b)) in acked
      {
        PieceAcked(content, slice, acked, Piece(uploadid, b));
      }
    }
  }

  class Upload {
    const content: string
    const slice: nat
    var saved: Saved
    ghost var acked: set<Ack>
    ghost var creates: seq<Create>

    function BlockCount(): nat
      requires slice > 0
    {
      Count(|content|, slice)
    }

    /** What holds at every moment. */
    ghost predicate Ready()
      reads this`acked
    {
      slice > 0 && content != [] && Right(content, slice, acked)
    }

    /** What holds between calls. */
    ghost predicate Valid()
      reads this, if saved.Progress? then {saved.resp} else {}
    {
      && Ready()
      && (saved.Progress? ==> Within(BlockCount(), saved.resp.blockList))
      && Remembers(Remembered(), Pieces(acked))
      && forall i | 0 <= i < |creates| :: Honest(content, slice, creates[i])
    }

    /** What the next call will find. */
    ghost function Remembered(): Memory
      reads this, if saved.Progress? then {saved.resp} else {}
    {
      match saved
      case Absent => Empty
      case Finished => Completed
      case Progress(resp) => Partial(resp.uploadid, resp.wanted, resp.blockList)
    }

    constructor (content: string, slice: nat)
      requires slice > 0 && content != []
      ensures this.content == content && this.slice == slice
      ensures Valid() && saved == Absent && acked == {} && creates == []
    {
      this.content, this.slice := content, slice;
      saved, acked, creates := Absent, {}, [];
    }

    method Precreate(reply: Reply) returns (r: Precreated)
      ensures r.Stopped? <==> reply.Refused?
      ensures r.Rapid? <==> reply.AlreadyThere?
      ensures r.Wanted? ==>
        fresh(r.resp) && reply == Reply.Blocks(r.resp.uploadid, r.resp.blockList) && r.resp.wanted == r.resp.blockList
    {
      match reply {
        case Refused => return Stopped;
        case AlreadyThere => return Rapid;
        case Blocks(uploadid, blockList) =>
          var resp := new PrecreateResp(uploadid, blockList);
          return Wanted(resp);
      }
    }

    /** One concurrent round. A task that fails may still have reached the server. */
    method UploadRound(resp: PrecreateResp, round: Round) returns (err: RoundError)
      requires Ready() && Within(BlockCount(), resp.blockList)
      modifies this`acked, resp`blockList
      ensures Ready() && Within(BlockCount(), resp.blockList)
      ensures Pieces(acked) == old(Pieces(acked))
              + Under(resp.uploadid, Delivered(old(resp.blockList), round.fates, |round.fates|))
      ensures resp.blockList == After(old(resp.blockList), round)
      ensures err == Verdict(resp.blockList, round.failure)
    {
      hide Block, Count, Right, Pieces, Under, Delivered;
      ghost var list, had := resp.blockList, Pieces(acked);
      NothingDelivered(resp.uploadid, list, round.fates);
      var n := 0;
      while n < |round.fates|
        invariant n <= |round.fates| && resp.blockList == Marked(list, round.fates, n)
        invariant Ready()
        invariant Pieces(acked) == had + Under(resp.uploadid, Delivered(list, round.fates, n))
      {
        MarkedWithin(BlockCount(), list, round.fates, n);
        DeliveredMore(resp.uploadid, list, round.fates, n);
        var fate := round.fates[n];
        n := n + 1;
        var i := fate.task;
        if i < |resp.blockList| && resp.blockList[i] >= 0 && fate.stored {
          var b := resp.blockList[i];
          assert b in resp.blockList;
          OneAck(content, slice, acked, resp.uploadid, b);
          acked := acked + {Ack(resp.uploadid, b, Block(content, slice, b))};
          if fate.replied {
            resp.blockList := resp.blockList[i := -1];
          }
        }
      }
      MarkedWithin(BlockCount(), list, round.fates, n);
      return Verdict(resp.blockList, round.failure);
    }

    /** SaveUploadProgress: the cache keeps the object itself, not a copy. */
    method SaveUploadProgress(resp: PrecreateResp)
      modifies this`saved
      ensures saved == Progress(resp)
    {
      saved := Progress(resp);
    }

    /** GetUploadProgress: the entry is deleted whether or not it is usable, and it may have timed out. */
    method GetUploadProgress(cached: bool) returns (r: Saved)
      modifies this`saved
      ensures saved == Absent
      ensures r == if cached then old(saved) else Absent
    {
      r := if cached then saved else Absent;
      saved := Absent;
    }

    /** The block list to start with: the saved one, or a new one from the server. */
    method Begin(answers: Answers) returns (r: Precreated)
      requires Valid() && Plausible(BlockCount(), answers)
      modifies this`saved
      ensures saved == Absent
      ensures var start := StartOf(old(Remembered()), answers);
              && (r.Stopped? <==> start.Refused?)
              && (r.Rapid? <==> start.AlreadyThere?)
              && (r.Wanted? ==>
                    && (fresh(r.resp) || old(saved) == Progress(r.resp)) && Within(BlockCount(), r.resp.blockList)
                    && start == Reply.Blocks(r.resp.uploadid, r.resp.blockList)
                    && r.resp.wanted == WantedOf(old(Remembered()), answers))
    {
      var progress := GetUploadProgress(answers.cached);
      if progress.Progress? {
        return Wanted(progress.resp);
      }
      r := Precreate(answers.replies[0]);
    }

    /** After a failed round: what is left is saved, and an expired upload id starts over with a new list. */
    method FailRound(resp: PrecreateResp, err: RoundError, reply: Reply) returns (r: Precreated)
      modifies this`saved, resp`blockList
      ensures saved == Progress(if r.Wanted? then r.resp else resp)
      ensures resp.blockList == Pending(old(resp.blockList))
      ensures r.Stopped? <==> !err.UploadIdExpired? || reply.Refused?
      ensures r.Rapid? <==> err.UploadIdExpired? && reply.AlreadyThere?
      ensures r.Wanted? ==>
        fresh(r.resp) && reply == Reply.Blocks(r.resp.uploadid, r.resp.blockList) && r.resp.wanted == r.resp.blockList
    {
      resp.blockList := Pending(resp.blockList);
      SaveUploadProgress(resp);
      if !err.UploadIdExpired? {
        return Stopped;
      }
      r := Precreate(reply);
      if r.Wanted? {
        SaveUploadProgress(r.resp);
      }
    }

    /** The loop of at most two rounds. `Wanted` means that the loop was left towards the create request. */
    method UploadRounds(start: PrecreateResp, answers: Answers) returns (r: Precreated, ghost late: bool)
      requires Ready() && saved == Absent && Plausible(BlockCount(), answers) && Within(BlockCount(), start.blockList)
      modifies this`saved, this`acked, start`blockList
      ensures Ready()
      ensures saved.Progress? ==> (fresh(saved.resp) || saved.resp == start) && Within(BlockCount(), saved.resp.blockList)
      ensures Ended(r, late, Remembered(), Pieces(acked)) ==
              RunRounds(start.uploadid, start.wanted, old(start.blockList), old(Pieces(acked)), answers, 0)
    {
      hide Pending, After, Verdict, Delivered, Under, Pieces, Right, Within, Count, RunRounds;
      var resp, round := start, 0;
      ghost var ending := RunRounds(start.uploadid, start.wanted, start.blockList, Pieces(acked), answers, 0);
      while round < 2
        invariant 0 <= round <= 2
        invariant saved == if round == 0 then Absent else Progress(resp)
        invariant fresh(resp) || resp == start
        invariant Ready() && Within(BlockCount(), resp.blockList)
        invariant ending == RunRounds(resp.uploadid, resp.wanted, resp.blockList, Pieces(acked), answers, round)
        invariant round == 2 ==> resp.wanted == resp.blockList
      {
        RoundStep(resp.uploadid, resp.wanted, resp.blockList, Pieces(acked), answers, round);
        var err := UploadRound(resp, answers.rounds[round]);
        if err.NoError? {
          return Wanted(resp), false;
        }
        round := round + 1;
        PendingWithin(BlockCount(), resp.blockList);
        ReplyWithin(BlockCount(), answers, round);
        r := FailRound(resp, err, answers.replies[round]);
        if !r.Wanted? {
          return r, false;
        }
        resp := r.resp;
      }
      RoundStep(resp.uploadid, resp.wanted, resp.blockList, Pieces(acked), answers, 2);
      return Wanted(resp), true;
    }

    /** The part of Put between the attempt at a rapid upload and the create request. */
    method SendBlocks(answers: Answers) returns (r: Precreated, ghost late: bool)
      requires Valid() && Plausible(BlockCount(), answers) && !answers.rapid
      modifies this`saved, this`acked, if saved.Progress? then {saved.resp} else {}
      ensures Ready()
      ensures saved.Progress? ==> (fresh(saved.resp) || saved == old(saved)) && Within(BlockCount(), saved.resp.blockList)
      ensures Ended(r, late, Remembered(), Pieces(acked)) == RunPut(old(Remembered()), old(Pieces(acked)), answers)
    {
      hide Remembers, Honest, Pieces, Right, RunRounds, Count, Within;
      late := false;
      r := Begin(answers);
      if r.Wanted? {
        r, late := UploadRounds(r.resp, answers);
      }
    }

    /** One call of Put; calls for the same key do not overlap. */
    method Put(answers: Answers) returns (r: PutResult)
      requires Valid() && Plausible(BlockCount(), answers)
      modifies this, if saved.Progress? then {saved.resp} else {}
      ensures Valid()
      ensures saved.Progress? ==> fresh(saved.resp) || saved == old(saved)
      ensures var ending := RunPut(old(Remembered()), old(Pieces(acked)), answers);
              && Remembered() == Cached(ending, answers.created)
              && Pieces(acked) == ending.stored
              && match ending
                 case Returns(result, _, _) => r == result && creates == old(creates)
                 case Creates(uploadid, wanted, blockList, late, _, _) =>
                   && r == (if answers.created then Uploaded else PutError)
                   && creates == old(creates) + [Create(uploadid, Unsent(wanted), Unsent(blockList), acked, late)]
      ensures r == Uploaded <==> Succeeds(old(Remembered()), answers)
      ensures SendsNothing(old(Remembered()), answers) ==>
        && creates == old(creates) && Pieces(acked) == old(Pieces(acked))
        && Remembered() == if answers.rapid then old(Remembered()) else Empty
    {
      hide Succeeds, SendsNothing, Tracked, Covered, Honest, Unsent, Pieces, Right, RunRounds, StartOf, WantedOf, Count, Within;
      CallTracked(Remembered(), Pieces(acked), answers);
      ResultExactly(Remembered(), Pieces(acked), answers);
      if answers.rapid {
        return Uploaded;
      }
      var ready, late := SendBlocks(answers);
      if !ready.Wanted? {
        return if ready.Rapid? then Uploaded else PutError;
      }
      var resp := ready.resp;
      CreateHonest(content, slice, resp.uploadid, resp.wanted, resp.blockList, late, acked);
      creates := creates + [Create(resp.uploadid, Unsent(resp.wanted), Unsent(resp.blockList), acked, late)];
      if !answers.created {
        return PutError;
      }
      saved := Finished;
      return Uploaded;
    }
  }

  lemma PendingWithin(count: nat, blockList: seq<int>)
    requires Within(count, blockList)
    ensures Within(count, Pending(blockList))
  {
    forall b | b in Pending(blockList) ensures b < count {
      if b >= 0 {
        assert b in blockList;
      }
    }
  }

  lemma ReplyWithin(count: nat, answers: Answers, k: nat)
    requires Plausible(count, answers) && k < 3
    ensures answers.replies[k].Blocks? ==> Within(count, answers.replies[k].blockList)
  {
  }

  ghost function Ended(r: Precreated, late: bool, left: Memory, stored: set<Piece>): Ending
    reads if r.Wanted? then {r.resp} else {}
  {
    match r
    case Stopped => Returns(PutError, left, stored)
    case Rapid => Returns(Uploaded, left, stored)
    case Wanted(resp) => Creates(resp.uploadid, resp.wanted, resp.blockList, late, left, stored)
  }

  // ----- any number of calls -----

  /** The create request is the one the fold over the calls predicts, with everything stored so far as bytes. */
  ghost predicate Matches(content: string, slice: nat, c: Create, r: Request)
    requires slice > 0 && content != []
  {
    && c.uploadid == r.uploadid && c.required == Unsent(r.wanted) && c.unsent == Unsent(r.blockList) && c.late == r.late
    && Pieces(c.acked) == r.stored && Right(content, slice, c.acked)
  }

  /** From number `from` on, the create requests are those the fold predicts. */
  ghost predicate Predicted(content: string, slice: nat, creates: seq<Create>, from: nat, requests: seq<Request>)
    requires slice > 0 && content != []
  {
    && |creates| == from + |requests|
    && forall i | 0 <= i < |requests| :: Matches(content, slice, creates[from + i], requests[i])
  }

  lemma PredictedNext(content: string, slice: nat, creates: seq<Create>, from: nat, requests: seq<Request>, c: Create, r: Request)
    requires slice > 0 && content != []
    requires Predicted(content, slice, creates, from, requests) && Matches(content, slice, c, r)
    ensures Predicted(content, slice, creates + [c], from, requests + [r])
  {
    hide Matches;
  }

  /** One more call, seen from the fold. */
  lemma PredictedStep(upload: Upload, creates: seq<Create>, from: nat, memory: Memory, stored: set<Piece>, calls: seq<Answers>,
                      n: nat)
    requires upload.Valid() && n < |calls| && AllAnswered(calls)
    requires Predicted(upload.content, upload.slice, creates, from, RunCalls(memory, stored, calls, n).requests)
    requires var past := RunCalls(memory, stored, calls, n);
             var ending := RunPut(past.memory, past.stored, calls[n]);
             && Pieces(upload.acked) == ending.stored
             && upload.creates == creates +
                if ending.Returns? then []
                else [Create(ending.uploadid, Unsent(ending.wanted), Unsent(ending.blockList), upload.acked, ending.late)]
    ensures Predicted(upload.content, upload.slice, upload.creates, from, RunCalls(memory, stored, calls, n + 1).requests)
  {
    hide RunPut, Unsent, Pieces, Right, Predicted;
    var past := RunCalls(memory, stored, calls, n);
    var ending := RunPut(past.memory, past.stored, calls[n]);
    if ending.Creates? {
      PredictedNext(upload.content, upload.slice, creates, from, past.requests,
                    Create(ending.uploadid, Unsent(ending.wanted), Unsent(ending.blockList), upload.acked, ending.late),
                    Request(n, ending.uploadid, ending.wanted, ending.blockList, ending.late, ending.stored));
    } else {
      assert creates + [] == creates && past.requests + [] == past.requests;
    }
  }

  /** Any number of calls, failing, resumed or successful: the create requests, the stored blocks and the final cache are
      those of the fold over the calls. */
  method Session(upload: Upload, calls: seq<Answers>)
    requires upload.Valid()
    requires forall i | 0 <= i < |calls| :: Plausible(upload.BlockCount(), calls[i])
    modifies upload, if upload.saved.Progress? then {upload.saved.resp} else {}
    ensures upload.Valid() && old(upload.creates) <= upload.creates && AllAnswered(calls)
    ensures var past := RunCalls(old(upload.Remembered()), old(Pieces(upload.acked)), calls, |calls|);
            && upload.Remembered() == past.memory && Pieces(upload.acked) == past.stored
            && Predicted(upload.content, upload.slice, upload.creates, |old(upload.creates)|, past.requests)
  {
    hide Count, RunPut, Unsent, Pieces, Right, Remembers, Honest, Matches;
    ghost var memory, stored := upload.Remembered(), Pieces(upload.acked);
    var i := 0;
    while i < |calls|
      invariant i <= |calls| && AllAnswered(calls)
      invariant upload.Valid() && old(upload.creates) <= upload.creates
      invariant upload.saved.Progress? ==> fresh(upload.saved.resp) || upload.saved == old(upload.saved)
      invariant upload.Remembered() == RunCalls(memory, stored, calls, i).memory
      invariant Pieces(upload.acked) == RunCalls(memory, stored, calls, i).stored
      invariant Predicted(upload.content, upload.slice, upload.creates, |old(upload.creates)|,
                          RunCalls(memory, stored, calls, i).requests)
    {
      ghost var creates := upload.creates;
      var _ := upload.Put(calls[i]);
      PredictedStep(upload, creates, |old(upload.creates)|, memory, stored, calls, i);
      i := i + 1;
    }
  }

  /** Every create request of a session: unless its own call expired twice and blocks are wanted, nothing is left and
      every block the server asked for under its id is stored there with the bytes of its place; otherwise all of them
      are left. */
  lemma SessionComplete(content: string, slice: nat, creates: seq<Create>, from: nat, memory: Memory, stored: set<Piece>,
                        calls: seq<Answers>)
    requires slice > 0 && content != [] && AllAnswered(calls) && Remembers(memory, stored)
    requires Predicted(content, slice, creates, from, RunCalls(memory, stored, calls, |calls|).requests)
    ensures var requests := RunCalls(memory, stored, calls, |calls|).requests;
            forall i | 0 <= i < |requests| ::
              var c := creates[from + i];
              && c.required == Unsent(requests[i].wanted)
              && if CallExpiresAgain(memory, stored, calls, requests[i].call) then c.unsent == c.required != {}
                 else c.unsent == {} && Sent(content, slice, c.uploadid, c.required, c.acked)
  {
    hide RunCalls, CallExpiresAgain, Unsent, Remembers, Pieces, Right, Sent, Explained, Matches;
    RequestsComplete(memory, stored, calls, |calls|);
    var requests := RunCalls(memory, stored, calls, |calls|).requests;
    forall i | 0 <= i < |requests|
      ensures var c := creates[from + i];
              && c.required == Unsent(requests[i].wanted)
              && if CallExpiresAgain(memory, stored, calls, requests[i].call) then c.unsent == c.required != {}
                 else c.unsent == {} && Sent(content, slice, c.uploadid, c.required, c.acked)
    {
      MatchComplete(content, slice, creates[from + i], requests[i], CallExpiresAgain(memory, stored, calls, requests[i].call));
    }
  }

  lemma MatchComplete(content: string, slice: nat, c: Create, r: Request, expiresAgain: bool)
    requires slice > 0 && content != [] && Matches(content, slice, c, r) && Explained(r, expiresAgain)
    ensures c.required == Unsent(r.wanted)
    ensures if expiresAgain then c.unsent == c.required != {}
            else c.unsent == {} && Sent(content, slice, c.uploadid, c.required, c.acked)
  {
    hide Block, Count, Pieces, Right;
    if !expiresAgain {
      forall b | b in c.required
        ensures b < Count(|content|, slice) && Ack(c.uploadid, b, Block(content, slice, b)) in c.acked
      {
        PieceAcked(content, slice, c.acked, Piece(r.uploadid, b));
      }
    }
  }

  // ----- the file the server puts together -----

  function Joined(parts: seq<string>, n: nat): string
    requires n <= |parts|
  {
    if n == 0 then [] else Joined(parts, n - 1) + parts[n - 1]
  }

  /** These are the first `n` blocks the server has under the id. */
  ghost predicate Holds(uploadid: string, acked: set<Ack>, parts: seq<string>) {
    forall b | 0 <= b < |parts| :: Ack(uploadid, b, parts[b]) in acked
  }

  /** What the server has under the id, block by block up to the last, is the file; and it has all of it. */
  ghost predicate IsFile(content: string, slice: nat, uploadid: string, acked: set<Ack>)
    requires slice > 0 && content != []
  {
    var n := Count(|content|, slice);
    && (exists parts: seq<string> :: |parts| == n && Holds(uploadid, acked, parts))
    && forall parts: seq<string> | |parts| == n && Holds(uploadid, acked, parts) :: Joined(parts, n) == content
  }

  /** When the server had asked for the whole file and all of it was sent, what it has under the id is the file. */
  lemma StoredFile(content: string, slice: nat, uploadid: string, blocks: set<nat>, acked: set<Ack>)
    requires slice > 0 && content != [] && Right(content, slice, acked) && Sent(content, slice, uploadid, blocks, acked)
    requires forall b: nat | b < Count(|content|, slice) :: b in blocks
    ensures IsFile(content, slice, uploadid, acked)
  {
    hide Block, Count;
    var n := Count(|content|, slice);
    var parts := seq(n, b requires 0 <= b < n => Block(content, slice, b));
    assert Holds(uploadid, acked, parts);
    forall parts: seq<string> | |parts| == n && Holds(uploadid, acked, parts) ensures Joined(parts, n) == content {
      JoinedBlocks(content, slice, uploadid, acked, parts, n);
      AssembledPrefix(content, slice, n);
    }
  }

  lemma {:induction false} JoinedBlocks(content: string, slice: nat, uploadid: string, acked: set<Ack>, parts: seq<string>, n: nat)
    requires slice > 0 && content != [] && Right(content, slice, acked)
    requires n <= |parts| == Count(|content|, slice) && Holds(uploadid, acked, parts)
    ensures Joined(parts, n) == Assemble(content, slice, n)
  {
    hide Block, Count;
    if n > 0 {
      JoinedBlocks(content, slice, uploadid, acked, parts, n - 1);
      assert Ack(uploadid, n - 1, parts[n - 1]) in acked;
    }
  }

  /** Applied to a session: where the server had asked for every block under the id of a create request, and the call did
      not expire again, what it has under that id is the file. */
  lemma SessionFiles(content: string, slice: nat, creates: seq<Create>, from: nat, memory: Memory, stored: set<Piece>,
                     calls: seq<Answers>, i: nat)
    requires slice > 0 && content != [] && AllAnswered(calls) && Remembers(memory, stored)
    requires Predicted(content, slice, creates, from, RunCalls(memory, stored, calls, |calls|).requests)
    requires i < |RunCalls(memory, stored, calls, |calls|).requests|
    ensures var r, c := RunCalls(memory, stored, calls, |calls|).requests[i], creates[from + i];
            (forall b: nat | b < Count(|content|, slice) :: b in r.wanted) && !CallExpiresAgain(memory, stored, calls, r.call) ==>
              IsFile(content, slice, c.uploadid, c.acked)
  {
    hide Count, Sent, RunCalls, CallExpiresAgain, IsFile, Right, Pieces;
    SessionComplete(content, slice, creates, from, memory, stored, calls);
    var r, c := RunCalls(memory, stored, calls, |calls|).requests[i], creates[from + i];
    assert Matches(content, slice, c, r);
    if (forall b: nat | b < Count(|content|, slice) :: b in r.wanted) && !CallExpiresAgain(memory, stored, calls, r.call) {
      StoredFile(content, slice, c.uploadid, c.required, c.acked);
    }
  }

  // ----- runs -----

  /** The upload id expires twice before any block is sent: the create request goes out with every block of the
      last list missing. */
  method ExpiresTwice(content: string, slice: nat, blockList: seq<int>) returns (upload: Upload)
    requires slice > 0 && content != [] && Within(Count(|content|, slice), blockList) && Unsent(blockList) != {}
    ensures |upload.creates| == 1
    ensures var c := upload.creates[0]; c.unsent == c.required == Unsent(blockList) && Pieces(c.acked) == {}
  {
    hide Count, Within, RunPut, Unsent, Right, Remembers, Honest, Pieces;
    upload := new Upload(content, slice);
    var list, round := Blocks("1", blockList), Round([], UploadIdExpired);
    var answers := Answers(false, false, [list, list, list], [round, round], true);
    NoPieces();
    NothingSent(blockList, answers);
    var _ := upload.Put(answers);
  }

  lemma NoPieces()
    ensures Pieces({}) == {}
  {
  }

  lemma NothingSent(blockList: seq<int>, answers: Answers)
    requires Unsent(blockList) != {} && Answered(answers) && !answers.rapid && !answers.cached
    requires forall i | 0 <= i < 3 :: answers.replies[i] == Blocks("1", blockList)
    requires forall i | 0 <= i < 2 :: answers.rounds[i] == Round([], UploadIdExpired)
    ensures RunPut(Empty, {}, answers) == Creates("1", blockList, blockList, true, Partial("1", blockList, blockList), {})
  {
    hide Unsent, RunRounds, ErrorOf, Under, Delivered, Pending;
    Expired(blockList, answers.rounds[0]);
    NothingDelivered("1", blockList, []);
    var none: set<Piece> := {};
    assert none + none == none;
    RoundStep("1", blockList, blockList, {}, answers, 0);
    RoundStep("1", blockList, blockList, {}, answers, 1);
    RoundStep("1", blockList, blockList, {}, answers, 2);
  }

  lemma Expired(blockList: seq<int>, round: Round)
    requires Unsent(blockList) != {} && round == Round([], UploadIdExpired)
    ensures ErrorOf(blockList, round) == UploadIdExpired
  {
    var b :| b in Unsent(blockList);
    var i :| 0 <= i < |blockList| && blockList[i] == b;
  }

  function AllBlocks(count: nat): (r: seq<int>)
    ensures |r| == count && Within(count, r) && forall b: nat :: b in r <==> b < count
  {
    var r: seq<int> := seq(count, i => i);
    EveryBlock(r);
    r
  }

  lemma EveryBlock(r: seq<int>)
    requires forall i | 0 <= i < |r| :: r[i] == i
    ensures Within(|r|, r) && forall b: nat :: b in r <==> b < |r|
  {
    forall b: nat | b < |r| ensures b in r {
      assert r[b] == b;
    }
  }

  /** A round in which every task succeeds. */
  function Clean(count: nat): Round {
    Round(seq(count, i requires 0 <= i < count => Fate(i, true, true)), NoError)
  }

  lemma CleanSends(blockList: seq<int>, count: nat)
    requires |blockList| <= count
    ensures ErrorOf(blockList, Clean(count)) == NoError
  {
    hide Marked;
    var fates := Clean(count).fates;
    forall i | 0 <= i < |blockList| ensures Marked(blockList, fates, count)[i] < 0 {
      MarkedAt(blockList, fates, count, i);
      assert fates[i] == Fate(i, true, true);
    }
  }

  /** The service wants the whole file. A first call fails in its first round, whichever blocks got through, heard of or
      not; a second one sends the rest. The one create request names all blocks, and the server has the file. */
  method Interrupted(content: string, slice: nat, uploadid: string, first: Round) returns (upload: Upload)
    requires slice > 0 && content != []
    requires var err := ErrorOf(AllBlocks(Count(|content|, slice)), first); err.Canceled? || err.OtherError?
    ensures upload.saved == Finished && |upload.creates| == 1
    ensures var c := upload.creates[0];
            && c.uploadid == uploadid && c.required == Unsent(AllBlocks(Count(|content|, slice))) && c.unsent == {}
            && IsFile(content, slice, uploadid, c.acked)
  {
    hide Count, Within, RunPut, Unsent, ErrorOf, Right, Remembers, Sent, Pieces, AllBlocks, Clean, IsFile;
    var count := Count(|content|, slice);
    var list, rest := AllBlocks(count), Clean(count);
    upload := new Upload(content, slice);
    NoPieces();
    var call := Answers(false, false, [Blocks(uploadid, list), Refused, Refused], [first, rest], false);
    FirstFails(uploadid, list, call);
    var _ := upload.Put(call);
    var again := Answers(false, true, [Refused, Refused, Refused], [rest, rest], true);
    RestSent(upload.Remembered(), Pieces(upload.acked), count, again);
    var _ := upload.Put(again);
    WholeStored(content, slice, upload.creates[0], list);
  }

  lemma FirstFails(uploadid: string, list: seq<int>, answers: Answers)
    requires Answered(answers) && !answers.rapid && !answers.cached && answers.replies[0] == Blocks(uploadid, list)
    requires var err := ErrorOf(list, answers.rounds[0]); err.Canceled? || err.OtherError?
    ensures var ending := RunPut(Empty, {}, answers);
            && ending.Returns? && ending.left.Partial?
            && ending.left.uploadid == uploadid && ending.left.wanted == list && |ending.left.blockList| <= |list|
  {
    hide RunRounds, ErrorOf, Delivered;
    RoundStep(uploadid, list, list, {}, answers, 0);
  }

  lemma RestSent(memory: Memory, stored: set<Piece>, count: nat, answers: Answers)
    requires memory.Partial? && |memory.blockList| <= count
    requires Answered(answers) && !answers.rapid && answers.cached && answers.rounds[0] == Clean(count)
    ensures var ending := RunPut(memory, stored, answers);
            && ending.Creates? && ending.uploadid == memory.uploadid && ending.wanted == memory.wanted && !ending.late
  {
    hide RunRounds, ErrorOf, Delivered;
    CleanSends(memory.blockList, count);
    RoundStep(memory.uploadid, memory.wanted, memory.blockList, stored, answers, 0);
  }

  lemma WholeStored(content: string, slice: nat, c: Create, list: seq<int>)
    requires slice > 0 && content != [] && Right(content, slice, c.acked) && Honest(content, slice, c) && !c.late
    requires c.required == Unsent(list) && list == AllBlocks(Count(|content|, slice))
    ensures c.unsent == {} && IsFile(content, slice, c.uploadid, c.acked)
  {
    hide Count, Right, Sent, IsFile, AllBlocks;
    StoredFile(content, slice, c.uploadid, c.required, c.acked);
  }
}
