/** What the answers of the service and the network make of a resumable upload, without the objects.

    The server names the blocks it wants under an upload id; concurrent tasks send them; the list of what is
    left is saved when a round fails and picked up by the next call; an expired upload id starts over once.
 */
module UploadRuns {

  // ----- what the server and the network decide -----

  datatype Reply =
    | Refused
    | AlreadyThere
    | Blocks(uploadid: string, blockList: seq<int>)

  /** One task finishes: did its block reach the server, and did the program hear of it? */
  datatype Fate = Fate(task: nat, stored: bool, replied: bool)

  datatype RoundError = NoError | Canceled | UploadIdExpired | OtherError

  /** The tasks of a round in the order in which they finish, and the error reported when not all succeed. */
  datatype Round = Round(fates: seq<Fate>, failure: RoundError)

  /** All answers one call of Put may need: whether the content is there already, whether the saved progress is still
      cached, the three precreate requests, the two rounds, and the create request. */
  datatype Answers = Answers(rapid: bool, cached: bool, replies: seq<Reply>, rounds: seq<Round>, created: bool)

  predicate Answered(answers: Answers) {
    |answers.replies| == 3 && |answers.rounds| == 2
  }

  // ----- one round -----

  /** The block list after the first `n` fates; a sent block is marked -1. */
  function Marked(blockList: seq<int>, fates: seq<Fate>, n: nat): (r: seq<int>)
    requires n <= |fates|
    ensures |r| == |blockList|
  {
    if n == 0 then blockList
    else
      var front, fate := Marked(blockList, fates, n - 1), fates[n - 1];
      if fate.task < |front| && front[fate.task] >= 0 && fate.stored && fate.replied then front[fate.task := -1] else front
  }

  predicate AllSent(blockList: seq<int>) {
    forall i | 0 <= i < |blockList| :: blockList[i] < 0
  }

  /** The error of a round: none only when every task succeeded and the call was not cancelled. */
  function Verdict(blockList: seq<int>, failure: RoundError): RoundError {
    if AllSent(blockList) then if failure.Canceled? then Canceled else NoError
    else if failure.NoError? then OtherError
    else failure
  }

  function After(blockList: seq<int>, round: Round): seq<int> {
    Marked(blockList, round.fates, |round.fates|)
  }

  /** The error of a round that starts from this list. */
  function ErrorOf(blockList: seq<int>, round: Round): RoundError {
    Verdict(After(blockList, round), round.failure)
  }

  /** One of the first `n` fates is that of the task in place `i`, and its block reached the server. */
  predicate Reached(fates: seq<Fate>, n: nat, i: nat)
    requires n <= |fates|
  {
    exists f | 0 <= f < n :: fates[f].task == i && fates[f].stored
  }

  /** The same, and the program heard of it. */
  predicate Replied(fates: seq<Fate>, n: nat, i: nat)
    requires n <= |fates|
  {
    exists f | 0 <= f < n :: fates[f].task == i && fates[f].stored && fates[f].replied
  }

  /** The blocks of a list that are still to be sent. */
  ghost function Unsent(blockList: seq<int>): set<nat> {
    set b: nat | b in blockList
  }

  /** The blocks of a list that the first `n` fates brought to the server, heard of or not. */
  ghost function Delivered(blockList: seq<int>, fates: seq<Fate>, n: nat): set<nat>
    requires n <= |fates|
  {
    set b: nat | b in blockList && exists i: nat | i < |blockList| :: blockList[i] == b && Reached(fates, n, i)
  }

  function Pending(blockList: seq<int>): (r: seq<int>)
    ensures |r| <= |blockList| && forall i | 0 <= i < |r| :: r[i] >= 0
    ensures forall b | b >= 0 :: b in r <==> b in blockList
  {
    if blockList == [] then []
    else if blockList[0] >= 0 then [blockList[0]] + Pending(blockList[1..])
    else Pending(blockList[1..])
  }

  /** A block the server has stored under an upload id. */
  datatype Piece = Piece(uploadid: string, seqno: nat)

  ghost function Under(uploadid: string, blocks: set<nat>): set<Piece> {
    set b | b in blocks :: Piece(uploadid, b)
  }

  // ----- one call -----

  /** What the progress cache is worth to the next call: the list first given under the id, and what is left of it. */
  datatype Memory =
    | Empty
    | Completed
    | Partial(uploadid: string, wanted: seq<int>, blockList: seq<int>)

  datatype PutResult = Uploaded | PutError

  /** How a call ends, what it leaves in the cache, and all the server has stored by then: it returns without a create
      request, or sends one for an id under which `wanted` was asked for and `blockList` is left. `late` marks a call
      whose second round expired as well. */
  datatype Ending =
    | Returns(result: PutResult, left: Memory, stored: set<Piece>)
    | Creates(uploadid: string, wanted: seq<int>, blockList: seq<int>, late: bool, left: Memory, stored: set<Piece>)

  /** The loop from round `k` on. After the first round the saved object is the one that is marked further. */
  ghost function RunRounds(uploadid: string, wanted: seq<int>, blockList: seq<int>, stored: set<Piece>, answers: Answers,
                           k: nat): Ending
    requires k <= 2 && Answered(answers)
    decreases 2 - k
  {
    if k == 2 then Creates(uploadid, wanted, blockList, true, Partial(uploadid, wanted, blockList), stored)
    else
      var sent := After(blockList, answers.rounds[k]);
      var stored' := stored + Under(uploadid, Delivered(blockList, answers.rounds[k].fates, |answers.rounds[k].fates|));
      var pending := Partial(uploadid, wanted, Pending(sent));
      match Verdict(sent, answers.rounds[k].failure)
      case NoError => Creates(uploadid, wanted, sent, false, if k == 0 then Empty else Partial(uploadid, wanted, sent), stored')
      case Canceled => Returns(PutError, pending, stored')
      case OtherError => Returns(PutError, pending, stored')
      case UploadIdExpired =>
        match answers.replies[k + 1]
        case Refused => Returns(PutError, pending, stored')
        case AlreadyThere => Returns(Uploaded, pending, stored')
        case Blocks(id, list) => RunRounds(id, list, list, stored', answers, k + 1)
  }

  /** What a call starts from: the saved block list, or the server's first reply. */
  function StartOf(memory: Memory, answers: Answers): Reply
    requires Answered(answers)
  {
    if answers.cached && memory.Partial? then Blocks(memory.uploadid, memory.blockList) else answers.replies[0]
  }

  /** The list first given under the id a call starts with. */
  function WantedOf(memory: Memory, answers: Answers): seq<int>
    requires Answered(answers) && StartOf(memory, answers).Blocks?
  {
    if answers.cached && memory.Partial? then memory.wanted else answers.replies[0].blockList
  }

  /** One call of Put on a cache with this content and a server that has stored this much. */
  ghost function RunPut(memory: Memory, stored: set<Piece>, answers: Answers): Ending
    requires Answered(answers)
  {
    if answers.rapid then Returns(Uploaded, memory, stored)
    else
      match StartOf(memory, answers)
      case Refused => Returns(PutError, Empty, stored)
      case AlreadyThere => Returns(Uploaded, Empty, stored)
      case Blocks(id, list) => RunRounds(id, WantedOf(memory, answers), list, stored, answers, 0)
  }

  /** The cache after the create request, if any. */
  ghost function Cached(ending: Ending, created: bool): Memory {
    if ending.Creates? && created then Completed else ending.left
  }

  /** One round; after the second the loop goes on to the create request. */
  lemma RoundStep(uploadid: string, wanted: seq<int>, blockList: seq<int>, stored: set<Piece>, answers: Answers, k: nat)
    requires k <= 2 && Answered(answers)
    ensures RunRounds(uploadid, wanted, blockList, stored, answers, k) ==
            if k == 2 then Creates(uploadid, wanted, blockList, true, Partial(uploadid, wanted, blockList), stored)
            else
              var round := answers.rounds[k];
              var sent, err := After(blockList, round), ErrorOf(blockList, round);
              var stored' := stored + Under(uploadid, Delivered(blockList, round.fates, |round.fates|));
              if err.NoError? then
                Creates(uploadid, wanted, sent, false, if k == 0 then Empty else Partial(uploadid, wanted, sent), stored')
              else if err.UploadIdExpired? && answers.replies[k + 1].Blocks? then
                var list := answers.replies[k + 1].blockList;
                RunRounds(answers.replies[k + 1].uploadid, list, list, stored', answers, k + 1)
              else
                Returns(if err.UploadIdExpired? && answers.replies[k + 1].AlreadyThere? then Uploaded else PutError,
                        Partial(uploadid, wanted, Pending(sent)), stored')
  {
    hide After, Verdict, Pending, Under, Delivered;
  }

  // ----- what is marked has been stored -----

  lemma {:induction false} MarkedAt(blockList: seq<int>, fates: seq<Fate>, n: nat, i: nat)
    requires n <= |fates| && i < |blockList|
    ensures Marked(blockList, fates, n)[i] == if blockList[i] >= 0 && Replied(fates, n, i) then -1 else blockList[i]
  {
    if n > 0 {
      MarkedAt(blockList, fates, n - 1, i);
      assert Replied(fates, n, i) <==>
             Replied(fates, n - 1, i) || (fates[n - 1].task == i && fates[n - 1].stored && fates[n - 1].replied);
    }
  }

  /** The blocks left after a round are those in a place no task reported. */
  lemma UnsentAfter(blockList: seq<int>, fates: seq<Fate>, n: nat, b: nat)
    requires n <= |fates|
    ensures b in Marked(blockList, fates, n) <==>
            exists i: nat | i < |blockList| :: blockList[i] == b && !Replied(fates, n, i)
  {
    hide Marked, Replied;
    var sent := Marked(blockList, fates, n);
    forall i: nat | i < |blockList|
      ensures sent[i] == if blockList[i] >= 0 && Replied(fates, n, i) then -1 else blockList[i]
    {
      MarkedAt(blockList, fates, n, i);
    }
    if b in sent {
      var i :| 0 <= i < |sent| && sent[i] == b;
    }
    if i: nat :| i < |blockList| && blockList[i] == b && !Replied(fates, n, i) {
      assert sent[i] == b;
    }
  }

  /** One more fate brings its block to the server unless the block is marked already. */
  lemma DeliveredStep(blockList: seq<int>, fates: seq<Fate>, n: nat)
    requires n < |fates|
    ensures var fate, front := fates[n], Marked(blockList, fates, n);
            Delivered(blockList, fates, n + 1) ==
            Delivered(blockList, fates, n)
            + if fate.task < |front| && front[fate.task] >= 0 && fate.stored then {front[fate.task] as nat} else {}
  {
    hide Marked;
    var fate := fates[n];
    forall i: nat ensures Reached(fates, n + 1, i) <==> Reached(fates, n, i) || (fate.task == i && fate.stored) {
    }
    if fate.task < |blockList| {
      MarkedAt(blockList, fates, n, fate.task);
      if blockList[fate.task] >= 0 && Replied(fates, n, fate.task) {
        assert Reached(fates, n, fate.task);
      }
    }
  }

  lemma DeliveredMore(uploadid: string, blockList: seq<int>, fates: seq<Fate>, n: nat)
    requires n < |fates|
    ensures var fate, front := fates[n], Marked(blockList, fates, n);
            Under(uploadid, Delivered(blockList, fates, n + 1)) ==
            Under(uploadid, Delivered(blockList, fates, n))
            + if fate.task < |front| && front[fate.task] >= 0 && fate.stored then {Piece(uploadid, front[fate.task])} else {}
  {
    hide Marked, Delivered;
    DeliveredStep(blockList, fates, n);
  }

  lemma NothingDelivered(uploadid: string, blockList: seq<int>, fates: seq<Fate>)
    ensures Under(uploadid, Delivered(blockList, fates, 0)) == {}
  {
  }

  /** Every block asked for under the id is stored under it or still on the list. */
  ghost predicate Tracked(uploadid: string, wanted: seq<int>, blockList: seq<int>, stored: set<Piece>) {
    && Unsent(blockList) <= Unsent(wanted)
    && forall b: nat | b in wanted && b !in blockList :: Piece(uploadid, b) in stored
  }

  lemma RoundTracked(uploadid: string, wanted: seq<int>, blockList: seq<int>, stored: set<Piece>, fates: seq<Fate>, n: nat)
    requires n <= |fates| && Tracked(uploadid, wanted, blockList, stored)
    ensures Tracked(uploadid, wanted, Marked(blockList, fates, n), stored + Under(uploadid, Delivered(blockList, fates, n)))
  {
    hide Marked, Replied;
    var sent := Marked(blockList, fates, n);
    forall b: nat
      ensures b in sent ==> b in blockList
      ensures b in blockList && b !in sent ==> b in Delivered(blockList, fates, n)
    {
      UnsentAfter(blockList, fates, n, b);
      if b in blockList && b !in sent {
        var i: nat :| i < |blockList| && blockList[i] == b;
        RepliedReached(fates, n, i);
      }
    }
  }

  lemma RepliedReached(fates: seq<Fate>, n: nat, i: nat)
    requires n <= |fates| && Replied(fates, n, i)
    ensures Reached(fates, n, i)
  {
  }

  /** Filtering forgets the marks and nothing else. */
  lemma PendingTracked(uploadid: string, wanted: seq<int>, blockList: seq<int>, stored: set<Piece>)
    requires Tracked(uploadid, wanted, blockList, stored)
    ensures Tracked(uploadid, wanted, Pending(blockList), stored)
  {
  }

  ghost predicate Remembers(memory: Memory, stored: set<Piece>) {
    memory.Partial? ==> Tracked(memory.uploadid, memory.wanted, memory.blockList, stored)
  }

  /** A create request claims no more than the server has: everything wanted under its id is stored, except after a
      second expiry, when all of it is still to be sent. */
  ghost predicate Covered(uploadid: string, wanted: seq<int>, blockList: seq<int>, late: bool, stored: set<Piece>) {
    if late then Unsent(blockList) == Unsent(wanted)
    else Unsent(blockList) == {} && forall b: nat | b in wanted :: Piece(uploadid, b) in stored
  }

  ghost predicate EndsWell(ending: Ending, stored: set<Piece>) {
    && stored <= ending.stored && Remembers(ending.left, ending.stored)
    && (ending.Creates? ==> Covered(ending.uploadid, ending.wanted, ending.blockList, ending.late, ending.stored))
  }

  lemma {:induction false} RoundsTracked(uploadid: string, wanted: seq<int>, blockList: seq<int>, stored: set<Piece>,
                                         answers: Answers, k: nat)
    requires k <= 2 && Answered(answers) && Tracked(uploadid, wanted, blockList, stored) && (k == 2 ==> blockList == wanted)
    ensures EndsWell(RunRounds(uploadid, wanted, blockList, stored, answers, k), stored)
    decreases 2 - k
  {
    hide RunRounds, ErrorOf, Marked, Pending, Delivered, Unsent;
    RoundStep(uploadid, wanted, blockList, stored, answers, k);
    if k < 2 {
      var round := answers.rounds[k];
      var stored' := stored + Under(uploadid, Delivered(blockList, round.fates, |round.fates|));
      RoundTracked(uploadid, wanted, blockList, stored, round.fates, |round.fates|);
      RoundSent(blockList, round);
      PendingTracked(uploadid, wanted, After(blockList, round), stored');
      if answers.replies[k + 1].Blocks? {
        var list := answers.replies[k + 1].blockList;
        RoundsTracked(answers.replies[k + 1].uploadid, list, list, stored', answers, k + 1);
      }
    }
  }

  lemma RoundSent(blockList: seq<int>, round: Round)
    ensures ErrorOf(blockList, round).NoError? ==> forall b: nat :: b !in After(blockList, round)
    ensures ErrorOf(blockList, round).NoError? ==> Unsent(After(blockList, round)) == {}
  {
    hide Marked;
  }

  /** One call keeps the cache honest about what is stored, and so is the create request it may send. */
  lemma CallTracked(memory: Memory, stored: set<Piece>, answers: Answers)
    requires Answered(answers) && Remembers(memory, stored)
    ensures EndsWell(RunPut(memory, stored, answers), stored)
  {
    hide RunRounds, Covered;
    if !answers.rapid && StartOf(memory, answers).Blocks? {
      var start := StartOf(memory, answers);
      RoundsTracked(start.uploadid, WantedOf(memory, answers), start.blockList, stored, answers, 0);
    }
  }

  // ----- which blocks a call stores -----

  /** Round number `k` takes place, and starts with this list. */
  predicate Begins(memory: Memory, answers: Answers, k: nat, uploadid: string, blockList: seq<int>)
    requires k < 2 && Answered(answers)
  {
    var start := StartOf(memory, answers);
    && !answers.rapid && start.Blocks?
    && if k == 0 then start == Blocks(uploadid, blockList)
       else ErrorOf(start.blockList, answers.rounds[0]).UploadIdExpired? && answers.replies[1] == Blocks(uploadid, blockList)
  }

  /** A round of this call begins with a list that has the block, under the id of the piece, and a task for it reaches
      the server. */
  ghost predicate Delivers(memory: Memory, answers: Answers, p: Piece)
    requires Answered(answers)
  {
    exists k: nat, list: seq<int>, i: nat ::
      && k < 2 && Begins(memory, answers, k, p.uploadid, list)
      && i < |list| && list[i] == p.seqno && Reached(answers.rounds[k].fates, |answers.rounds[k].fates|, i)
  }

  /** After a call the server has what it had before and what the call delivers. */
  lemma StoredExactly(memory: Memory, stored: set<Piece>, answers: Answers, p: Piece)
    requires Answered(answers)
    ensures p in RunPut(memory, stored, answers).stored <==>
            p in stored || Delivers(memory, answers, p)
  {
    hide RunRounds, ErrorOf, After, Delivered, Pending, Reached;
    var start := StartOf(memory, answers);
    if !answers.rapid && start.Blocks? {
      var fates, again := answers.rounds[0].fates, answers.replies[1];
      RoundStep(start.uploadid, WantedOf(memory, answers), start.blockList, stored, answers, 0);
      DeliveredExactly(start.blockList, fates, |fates|, p.seqno);
      assert Begins(memory, answers, 0, start.uploadid, start.blockList);
      if again.Blocks? && Begins(memory, answers, 1, again.uploadid, again.blockList) {
        var stored' := stored + Under(start.uploadid, Delivered(start.blockList, fates, |fates|));
        var fates' := answers.rounds[1].fates;
        RoundStep(again.uploadid, again.blockList, again.blockList, stored', answers, 1);
        DeliveredExactly(again.blockList, fates', |fates'|, p.seqno);
        ThirdList(answers, stored' + Under(again.uploadid, Delivered(again.blockList, fates', |fates'|)));
      }
    }
  }

  lemma DeliveredExactly(blockList: seq<int>, fates: seq<Fate>, n: nat, b: nat)
    requires n <= |fates|
    ensures b in Delivered(blockList, fates, n) <==>
            exists i: nat :: i < |blockList| && blockList[i] == b && Reached(fates, n, i)
  {
    hide Reached;
  }

  /** After two rounds nothing more is sent. */
  lemma ThirdList(answers: Answers, stored: set<Piece>)
    requires Answered(answers)
    ensures var third := answers.replies[2];
            third.Blocks? ==>
              RunRounds(third.uploadid, third.blockList, third.blockList, stored, answers, 2) ==
              Creates(third.uploadid, third.blockList, third.blockList, true,
                      Partial(third.uploadid, third.blockList, third.blockList), stored)
  {
  }

  // ----- what a call returns -----

  /** A round succeeds exactly when every block of its list is reported as sent and the call is not cancelled. */
  lemma ErrorExactly(blockList: seq<int>, round: Round)
    ensures var complete := forall i: nat | i < |blockList| && blockList[i] >= 0 :: Replied(round.fates, |round.fates|, i);
            && (ErrorOf(blockList, round).NoError? <==> complete && !round.failure.Canceled?)
            && (ErrorOf(blockList, round).UploadIdExpired? <==> !complete && round.failure.UploadIdExpired?)
            && (ErrorOf(blockList, round).Canceled? <==> round.failure.Canceled?)
  {
    hide Marked, Replied;
    var fates := round.fates;
    forall i: nat | i < |blockList|
      ensures After(blockList, round)[i] == if blockList[i] >= 0 && Replied(fates, |fates|, i) then -1 else blockList[i]
    {
      MarkedAt(blockList, fates, |fates|, i);
    }
  }

  /** The upload of this list goes through in the rounds from number `k` on: it is sent and created, or the server finds
      that it has the content after all. After two rounds the list no longer matters. */
  predicate GoesThrough(blockList: seq<int>, answers: Answers, k: nat)
    requires k <= 2 && Answered(answers)
    decreases 2 - k
  {
    if k == 2 || ErrorOf(blockList, answers.rounds[k]).NoError? then answers.created
    else
      && ErrorOf(blockList, answers.rounds[k]).UploadIdExpired?
      && match answers.replies[k + 1]
         case Refused => false
         case AlreadyThere => true
         case Blocks(_, list) => GoesThrough(list, answers, k + 1)
  }

  /** A call reports success exactly when the content is there already, by its digest or by the precreate request, or
      its upload goes through. */
  ghost predicate Succeeds(memory: Memory, answers: Answers)
    requires Answered(answers)
  {
    || answers.rapid
    || (if answers.cached && memory.Partial? then GoesThrough(memory.blockList, answers, 0)
        else
          match answers.replies[0]
          case Refused => false
          case AlreadyThere => true
          case Blocks(_, list) => GoesThrough(list, answers, 0))
  }

  /** Nothing is sent: by the digest the content is there already, or the first precreate request is not answered by a
      list. */
  ghost predicate SendsNothing(memory: Memory, answers: Answers)
    requires Answered(answers)
  {
    answers.rapid || (!(answers.cached && memory.Partial?) && !answers.replies[0].Blocks?)
  }

  ghost predicate Reports(ending: Ending, created: bool) {
    if ending.Creates? then created else ending.result.Uploaded?
  }

  lemma {:induction false} RoundsReport(uploadid: string, wanted: seq<int>, blockList: seq<int>, stored: set<Piece>, answers: Answers,
                                        k: nat)
    requires k <= 2 && Answered(answers)
    ensures Reports(RunRounds(uploadid, wanted, blockList, stored, answers, k), answers.created) <==>
            GoesThrough(blockList, answers, k)
    decreases 2 - k
  {
    hide RunRounds, ErrorOf, After, Under, Delivered, Pending;
    RoundStep(uploadid, wanted, blockList, stored, answers, k);
    if k < 2 && answers.replies[k + 1].Blocks? {
      var stored' := stored + Under(uploadid, Delivered(blockList, answers.rounds[k].fates, |answers.rounds[k].fates|));
      var list := answers.replies[k + 1].blockList;
      RoundsReport(answers.replies[k + 1].uploadid, list, list, stored', answers, k + 1);
    }
  }

  /** What a call returns, over cache and answers; and a call that sends nothing leaves the server as it was, and the
      cache too when it did not get to look there. */
  lemma ResultExactly(memory: Memory, stored: set<Piece>, answers: Answers)
    requires Answered(answers)
    ensures var ending := RunPut(memory, stored, answers);
            && (Reports(ending, answers.created) <==> Succeeds(memory, answers))
            && (SendsNothing(memory, answers) ==>
                  ending.Returns? && ending.stored == stored && ending.left == if answers.rapid then memory else Empty)
  {
    hide RunRounds, GoesThrough;
    if !answers.rapid && StartOf(memory, answers).Blocks? {
      var start := StartOf(memory, answers);
      RoundsReport(start.uploadid, WantedOf(memory, answers), start.blockList, stored, answers, 0);
    }
  }

  /** When the create request itself fails, the next call starts afresh if the first round had succeeded, and goes on
      under the new id if one had expired. */
  lemma CreateLeaves(memory: Memory, stored: set<Piece>, answers: Answers)
    requires Answered(answers) && RunPut(memory, stored, answers).Creates?
    ensures var ending := RunPut(memory, stored, answers);
            && !answers.rapid && StartOf(memory, answers).Blocks?
            && ending.left == if ErrorOf(StartOf(memory, answers).blockList, answers.rounds[0]).NoError? then Empty
                              else Partial(ending.uploadid, ending.wanted, ending.blockList)
  {
    hide RunRounds, ErrorOf, After, Delivered, Pending;
    var start := StartOf(memory, answers);
    RoundStep(start.uploadid, WantedOf(memory, answers), start.blockList, stored, answers, 0);
    if answers.replies[1].Blocks? {
      var again, fates, fates' := answers.replies[1], answers.rounds[0].fates, answers.rounds[1].fates;
      var stored' := stored + Under(start.uploadid, Delivered(start.blockList, fates, |fates|));
      RoundStep(again.uploadid, again.blockList, again.blockList, stored', answers, 1);
      ThirdList(answers, stored' + Under(again.uploadid, Delivered(again.blockList, fates', |fates'|)));
    }
  }

  // ----- calls that fail, and calls that resume -----

  /** The second round ends in an expired upload id as well as the first, and the third precreate request asks for some
      block. */
  ghost predicate ExpiresAgain(memory: Memory, answers: Answers)
    requires Answered(answers)
  {
    && !answers.rapid && StartOf(memory, answers).Blocks?
    && ErrorOf(StartOf(memory, answers).blockList, answers.rounds[0]).UploadIdExpired?
    && answers.replies[1].Blocks? && ErrorOf(answers.replies[1].blockList, answers.rounds[1]).UploadIdExpired?
    && answers.replies[2].Blocks? && Unsent(answers.replies[2].blockList) != {}
  }

  /** A call sends a create request although blocks are missing exactly when its upload id expires twice and the
      third precreate request asks for some block. */
  lemma IncompleteExactly(memory: Memory, stored: set<Piece>, answers: Answers)
    requires Answered(answers)
    ensures var ending := RunPut(memory, stored, answers);
            ending.Creates? && Unsent(ending.blockList) != {} <==> ExpiresAgain(memory, answers)
    ensures ExpiresAgain(memory, answers) ==> RunPut(memory, stored, answers).late
  {
    hide RunRounds, ErrorOf, After, Delivered, Pending, Unsent;
    var start := StartOf(memory, answers);
    if !answers.rapid && start.Blocks? {
      var fates, again := answers.rounds[0].fates, answers.replies[1];
      RoundStep(start.uploadid, WantedOf(memory, answers), start.blockList, stored, answers, 0);
      RoundSent(start.blockList, answers.rounds[0]);
      if again.Blocks? {
        var stored' := stored + Under(start.uploadid, Delivered(start.blockList, fates, |fates|));
        var fates' := answers.rounds[1].fates;
        RoundStep(again.uploadid, again.blockList, again.blockList, stored', answers, 1);
        RoundSent(again.blockList, answers.rounds[1]);
        ThirdList(answers, stored' + Under(again.uploadid, Delivered(again.blockList, fates', |fates'|)));
      }
    }
  }

  /** The create request of a call claims a complete upload, everything wanted under its id stored, unless its upload
      id expires twice and the last list is not empty; then all of that list is still to be sent. */
  lemma CompleteExactly(memory: Memory, stored: set<Piece>, answers: Answers)
    requires Answered(answers) && Remembers(memory, stored)
    ensures var ending := RunPut(memory, stored, answers);
            ending.Creates? ==>
              if ExpiresAgain(memory, answers) then Unsent(ending.blockList) == Unsent(ending.wanted) != {}
              else Unsent(ending.blockList) == {} && forall b: nat | b in ending.wanted :: Piece(ending.uploadid, b) in ending.stored
  {
    hide RunPut, ExpiresAgain, Remembers;
    IncompleteExactly(memory, stored, answers);
    CallTracked(memory, stored, answers);
    var ending := RunPut(memory, stored, answers);
    forall b: nat ensures ending.Creates? ==> (b in ending.wanted <==> b in Unsent(ending.wanted)) {
    }
  }

  /** A call that ends in a failed round, the first or the second, and is not given a new list after it, leaves the id
      of that round and exactly the blocks nobody reported as sent; the next call goes on with them unless the entry
      has timed out. */
  lemma ResumedExactly(memory: Memory, stored: set<Piece>, answers: Answers, k: nat, uploadid: string, blockList: seq<int>,
                       next: Answers)
    requires Answered(answers) && Answered(next) && k < 2 && Begins(memory, answers, k, uploadid, blockList)
    requires var err := ErrorOf(blockList, answers.rounds[k]);
             !err.NoError? && !(err.UploadIdExpired? && answers.replies[k + 1].Blocks?)
    ensures var ending, fates := RunPut(memory, stored, answers), answers.rounds[k].fates;
            && ending.Returns?
            && (ending.result.Uploaded? <==>
                  ErrorOf(blockList, answers.rounds[k]).UploadIdExpired? && answers.replies[k + 1].AlreadyThere?)
            && var resumed := StartOf(Cached(ending, answers.created), next);
               if next.cached then
                 && resumed.Blocks? && resumed.uploadid == uploadid
                 && WantedOf(ending.left, next) == (if k == 0 then WantedOf(memory, answers) else blockList)
                 && forall b: int :: b in resumed.blockList <==>
                      b >= 0 && exists i: nat | i < |blockList| :: blockList[i] == b && !Replied(fates, |fates|, i)
               else resumed == next.replies[0]
  {
    hide RunRounds, Marked, ErrorOf, Replied, Delivered;
    var start, round := StartOf(memory, answers), answers.rounds[k];
    RoundStep(start.uploadid, WantedOf(memory, answers), start.blockList, stored, answers, 0);
    if k == 1 {
      var first := answers.rounds[0].fates;
      RoundStep(uploadid, blockList, blockList, stored + Under(start.uploadid, Delivered(start.blockList, first, |first|)), answers, 1);
    }
    var left := Pending(After(blockList, round));
    forall b: int
      ensures b in left <==>
              b >= 0 && exists i: nat | i < |blockList| :: blockList[i] == b && !Replied(round.fates, |round.fates|, i)
    {
      if b >= 0 {
        UnsentAfter(blockList, round.fates, |round.fates|, b);
      }
    }
  }

  // ----- any number of calls -----

  /** The create request a call sends, and all the server has stored at that moment. */
  datatype Request = Request(call: nat, uploadid: string, wanted: seq<int>, blockList: seq<int>, late: bool, stored: set<Piece>)

  /** What calls have left behind. */
  datatype Past = Past(memory: Memory, stored: set<Piece>, requests: seq<Request>)

  predicate AllAnswered(calls: seq<Answers>) {
    forall i | 0 <= i < |calls| :: Answered(calls[i])
  }

  /** The first `n` calls, one after the other. */
  ghost function RunCalls(memory: Memory, stored: set<Piece>, calls: seq<Answers>, n: nat): (r: Past)
    requires n <= |calls| && AllAnswered(calls)
    ensures forall i | 0 <= i < |r.requests| :: r.requests[i].call < n
  {
    if n == 0 then Past(memory, stored, [])
    else
      var past, answers := RunCalls(memory, stored, calls, n - 1), calls[n - 1];
      var ending := RunPut(past.memory, past.stored, answers);
      Past(Cached(ending, answers.created), ending.stored,
           past.requests +
           if ending.Returns? then []
           else [Request(n - 1, ending.uploadid, ending.wanted, ending.blockList, ending.late, ending.stored)])
  }

  /** This call delivers the piece. */
  ghost predicate CallDelivers(memory: Memory, stored: set<Piece>, calls: seq<Answers>, call: nat, p: Piece)
    requires call < |calls| && AllAnswered(calls)
  {
    Delivers(RunCalls(memory, stored, calls, call).memory, calls[call], p)
  }

  /** The server has what it had at first and what the calls have delivered. */
  lemma {:induction false} AllStoredExactly(memory: Memory, stored: set<Piece>, calls: seq<Answers>, n: nat, p: Piece)
    requires n <= |calls| && AllAnswered(calls)
    ensures p in RunCalls(memory, stored, calls, n).stored <==>
            p in stored || exists i | 0 <= i < n :: CallDelivers(memory, stored, calls, i, p)
  {
    hide RunCalls, CallDelivers;
    if n == 0 {
      NoCalls(memory, stored, calls);
    } else {
      AllStoredExactly(memory, stored, calls, n - 1, p);
      CallStores(memory, stored, calls, n - 1, p);
    }
  }

  lemma NoCalls(memory: Memory, stored: set<Piece>, calls: seq<Answers>)
    requires AllAnswered(calls)
    ensures RunCalls(memory, stored, calls, 0) == Past(memory, stored, [])
  {
  }

  lemma CallStores(memory: Memory, stored: set<Piece>, calls: seq<Answers>, call: nat, p: Piece)
    requires call < |calls| && AllAnswered(calls)
    ensures p in RunCalls(memory, stored, calls, call + 1).stored <==>
            p in RunCalls(memory, stored, calls, call).stored || CallDelivers(memory, stored, calls, call, p)
  {
    hide RunPut, Delivers;
    var past := RunCalls(memory, stored, calls, call);
    StoredExactly(past.memory, past.stored, calls[call], p);
  }

  /** The upload id of this call expires twice and blocks are wanted. */
  ghost predicate CallExpiresAgain(memory: Memory, stored: set<Piece>, calls: seq<Answers>, call: nat)
    requires call < |calls| && AllAnswered(calls)
  {
    ExpiresAgain(RunCalls(memory, stored, calls, call).memory, calls[call])
  }

  /** What a create request says, given whether its own call expired twice. */
  ghost predicate Explained(r: Request, expiresAgain: bool) {
    if expiresAgain then Unsent(r.blockList) == Unsent(r.wanted) != {}
    else Unsent(r.blockList) == {} && forall b: nat | b in r.wanted :: Piece(r.uploadid, b) in r.stored
  }

  /** The request is the one its own call sends. */
  ghost predicate FromCall(r: Request, memory: Memory, stored: set<Piece>, calls: seq<Answers>)
    requires AllAnswered(calls)
  {
    && r.call < |calls|
    && var past := RunCalls(memory, stored, calls, r.call);
       var ending := RunPut(past.memory, past.stored, calls[r.call]);
       && ending.Creates?
       && r == Request(r.call, ending.uploadid, ending.wanted, ending.blockList, ending.late, ending.stored)
  }

  ghost predicate InOrder(requests: seq<Request>, memory: Memory, stored: set<Piece>, calls: seq<Answers>)
    requires AllAnswered(calls)
  {
    && (forall i | 0 <= i < |requests| :: FromCall(requests[i], memory, stored, calls))
    && forall i, j | 0 <= i < j < |requests| :: requests[i].call < requests[j].call
  }

  lemma {:induction false} RequestsInOrder(memory: Memory, stored: set<Piece>, calls: seq<Answers>, n: nat)
    requires n <= |calls| && AllAnswered(calls)
    ensures InOrder(RunCalls(memory, stored, calls, n).requests, memory, stored, calls)
  {
    hide RunPut, FromCall, InOrder;
    if n == 0 {
      NothingRequested(memory, stored, calls);
    } else {
      RequestsInOrder(memory, stored, calls, n - 1);
      var past := RunCalls(memory, stored, calls, n - 1);
      var ending := RunPut(past.memory, past.stored, calls[n - 1]);
      assert past.requests + [] == past.requests;
      if ending.Creates? {
        OneMore(past.requests, Request(n - 1, ending.uploadid, ending.wanted, ending.blockList, ending.late, ending.stored),
                memory, stored, calls);
      }
    }
  }

  lemma NothingRequested(memory: Memory, stored: set<Piece>, calls: seq<Answers>)
    requires AllAnswered(calls)
    ensures InOrder([], memory, stored, calls)
  {
  }

  lemma OneMore(requests: seq<Request>, r: Request, memory: Memory, stored: set<Piece>, calls: seq<Answers>)
    requires AllAnswered(calls) && InOrder(requests, memory, stored, calls) && r.call < |calls|
    requires forall i | 0 <= i < |requests| :: requests[i].call < r.call
    requires var past := RunCalls(memory, stored, calls, r.call);
             var ending := RunPut(past.memory, past.stored, calls[r.call]);
             && ending.Creates?
             && r == Request(r.call, ending.uploadid, ending.wanted, ending.blockList, ending.late, ending.stored)
    ensures InOrder(requests + [r], memory, stored, calls)
  {
    hide RunPut, RunCalls;
  }

  /** Over any number of calls: at most one create request a call, in order, and one with missing blocks exactly where
      the call's own id expires twice and blocks are wanted. */
  lemma RequestsExactly(memory: Memory, stored: set<Piece>, calls: seq<Answers>, n: nat)
    requires n <= |calls| && AllAnswered(calls)
    ensures var requests := RunCalls(memory, stored, calls, n).requests;
            && (forall i, j | 0 <= i < j < |requests| :: requests[i].call < requests[j].call)
            && forall i | 0 <= i < |requests| ::
                 Unsent(requests[i].blockList) != {} <==> CallExpiresAgain(memory, stored, calls, requests[i].call)
  {
    hide RunPut, RunCalls, Unsent, ExpiresAgain;
    RequestsInOrder(memory, stored, calls, n);
    var requests := RunCalls(memory, stored, calls, n).requests;
    forall i | 0 <= i < |requests|
      ensures Unsent(requests[i].blockList) != {} <==> CallExpiresAgain(memory, stored, calls, requests[i].call)
    {
      var r := requests[i];
      assert FromCall(r, memory, stored, calls);
      var past := RunCalls(memory, stored, calls, r.call);
      IncompleteExactly(past.memory, past.stored, calls[r.call]);
    }
  }

  /** What the cache remembers stays true over any number of calls, and the server forgets nothing. */
  lemma {:induction false} CallsTracked(memory: Memory, stored: set<Piece>, calls: seq<Answers>, n: nat)
    requires n <= |calls| && AllAnswered(calls) && Remembers(memory, stored)
    ensures var past := RunCalls(memory, stored, calls, n); Remembers(past.memory, past.stored) && stored <= past.stored
  {
    hide RunPut, Remembers;
    if n > 0 {
      CallsTracked(memory, stored, calls, n - 1);
      var past := RunCalls(memory, stored, calls, n - 1);
      CallLeaves(past.memory, past.stored, calls[n - 1]);
    }
  }

  lemma CallLeaves(memory: Memory, stored: set<Piece>, answers: Answers)
    requires Answered(answers) && Remembers(memory, stored)
    ensures var ending := RunPut(memory, stored, answers);
            Remembers(Cached(ending, answers.created), ending.stored) && stored <= ending.stored
  {
    hide RunPut, Tracked, Covered;
    CallTracked(memory, stored, answers);
  }

  /** Every create request: everything wanted under its id is stored and nothing is left, unless the call's own id
      expires twice and blocks are wanted; then all of them are left. */
  lemma RequestsComplete(memory: Memory, stored: set<Piece>, calls: seq<Answers>, n: nat)
    requires n <= |calls| && AllAnswered(calls) && Remembers(memory, stored)
    ensures var requests := RunCalls(memory, stored, calls, n).requests;
            forall i | 0 <= i < |requests| ::
              Explained(requests[i], CallExpiresAgain(memory, stored, calls, requests[i].call))
  {
    hide RunPut, RunCalls, Unsent, ExpiresAgain, Remembers;
    RequestsInOrder(memory, stored, calls, n);
    var requests := RunCalls(memory, stored, calls, n).requests;
    forall i | 0 <= i < |requests|
      ensures Explained(requests[i], CallExpiresAgain(memory, stored, calls, requests[i].call))
    {
      var r := requests[i];
      assert FromCall(r, memory, stored, calls);
      var past := RunCalls(memory, stored, calls, r.call);
      CallsTracked(memory, stored, calls, r.call);
      CompleteExactly(past.memory, past.stored, calls[r.call]);
    }
  }
}
