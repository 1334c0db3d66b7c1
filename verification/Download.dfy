/** One download task: a partial file that is resumed across failures, whole-file checksum
    rounds, and the final move. The server, the disk and the user are scripted by the caller. */
module Download {
  import opened Bytes

  datatype DownloadError =
    | Http
    | HttpStatus(code: nat)
    | Io(fatal: bool)
    | Cancelled
    | Paused

  predicate IsTransient(e: DownloadError)
  {
    e.Http? || (e.HttpStatus? && 500 <= e.code <= 599) || (e.Io? && !e.fatal)
  }

  predicate IsUserInterrupt(e: DownloadError) { e.Cancelled? || e.Paused? }

  type UserStop = e: DownloadError | IsUserInterrupt(e) witness Cancelled

  /** What happens next while a body is received. A failed write may leave a part of the chunk. */
  datatype StreamEvent =
    | Chunk(bytes: seq<byte>)
    | Interrupt(error: DownloadError)
    | WriteFails(written: seq<byte>, fatal: bool)

  /** What a request meets: no answer; a local failure before the file is touched; a response 200
      after which the old file has been removed and the new one cannot be created; or a response
      whose body is received. */
  datatype Response =
    | Unreachable
    | LocalFailure(fatal: bool)
    | CreateFails(fatal: bool)
    | Status(code: nat, events: seq<StreamEvent>)

  datatype Options = Options(resume: bool, maxRetries: nat, expected: Option<nat>, skipIfValid: bool)

  // ---- one attempt ----

  /** The partial file after a stream, and how the stream ended. */
  function Received(part: seq<byte>, events: seq<StreamEvent>): (seq<byte>, Option<DownloadError>)
    decreases |events|
  {
    if events == [] then (part, None)
    else match events[0]
      case Chunk(bytes) => Received(part + bytes, events[1..])
      case Interrupt(error) => (part, Some(error))
      case WriteFails(written, fatal) => (part + written, Some(Io(fatal)))
  }

  function Start(o: Options, part: Option<seq<byte>>): nat
  {
    if o.resume && part.Some? then |part.value| else 0
  }

  /** The partial file and the error, if any, after one attempt. */
  function Attempt(o: Options, part: Option<seq<byte>>, response: Response): (Option<seq<byte>>, Option<DownloadError>)
  {
    match response
    case Unreachable => (part, Some(Http))
    case LocalFailure(fatal) => (part, Some(Io(fatal)))
    case CreateFails(fatal) => (None, Some(Io(fatal)))
    case Status(code, events) =>
      if code == 200 then
        var r := Received([], events); (Some(r.0), r.1)
      else if code == 206 then
        var r := Received(if part.Some? then part.value else [], events); (Some(r.0), r.1)
      else (part, Some(HttpStatus(code)))
  }

  // ---- the honest server ----

  /** Bytes that a stream delivers before it ends or is cut. */
  function Sent(events: seq<StreamEvent>): seq<byte>
  {
    if events == [] then []
    else match events[0]
      case Chunk(bytes) => bytes + Sent(events[1..])
      case Interrupt(_) => []
      case WriteFails(written, _) => written
  }

  predicate Complete(events: seq<StreamEvent>)
  {
    forall i :: 0 <= i < |events| ==> events[i].Chunk?
  }

  /** The body is sent from its beginning, and whole if nothing cuts it. */
  ghost predicate Delivers(events: seq<StreamEvent>, body: seq<byte>)
  {
    Sent(events) <= body && (Complete(events) ==> Sent(events) == body)
  }

  /** A server with fixed content that honours Range (sections 14.2 and 15.3.7 of RFC 9110): 200
      answers with everything, 206 only a range request, with what follows its start. */
  ghost predicate Honest(content: seq<byte>, start: nat, response: Response)
  {
    response.Status? ==>
      && (response.code == 200 ==> Delivers(response.events, content))
      && (response.code == 206 ==> 0 < start <= |content| && Delivers(response.events, content[start..]))
  }

  ghost predicate IsPrefix(part: Option<seq<byte>>, content: seq<byte>)
  {
    part.Some? ==> part.value <= content
  }

  lemma {:induction false} ReceivedIs(part: seq<byte>, events: seq<StreamEvent>)
    ensures Received(part, events).0 == part + Sent(events)
    ensures Received(part, events).1.None? ==> Complete(events)
    decreases |events|
  {
    if events != [] && events[0].Chunk? {
      ReceivedIs(part + events[0].bytes, events[1..]);
      assert (part + events[0].bytes) + Sent(events[1..]) == part + (events[0].bytes + Sent(events[1..]));
      assert events == [events[0]] + events[1..];
    }
  }

  /** The bytes of all chunks, one behind the other. */
  function Joined(chunks: seq<seq<byte>>): seq<byte>
  {
    if chunks == [] then [] else chunks[0] + Joined(chunks[1..])
  }

  /** The error of the first event that is no chunk, if there is one. */
  function StreamError(events: seq<StreamEvent>): Option<DownloadError>
  {
    if events == [] then None
    else match events[0]
      case Chunk(_) => StreamError(events[1..])
      case Interrupt(error) => Some(error)
      case WriteFails(_, fatal) => Some(Io(fatal))
  }

  lemma {:induction false} ReceivedExactly(part: seq<byte>, events: seq<StreamEvent>)
    ensures Received(part, events) == (part + Sent(events), StreamError(events))
    decreases |events|
  {
    assert part + [] == part;
    if events != [] && events[0].Chunk? {
      ReceivedExactly(part + events[0].bytes, events[1..]);
      assert (part + events[0].bytes) + Sent(events[1..]) == part + (events[0].bytes + Sent(events[1..]));
    }
  }

  /** What a stream brings: its chunks, up to the first event that is none, and what a failing write
      leaves of the chunk that it was to write; and the error is that event's. */
  lemma {:induction false} StreamExactly(chunks: seq<seq<byte>>, rest: seq<StreamEvent>)
    requires rest != [] ==> !rest[0].Chunk?
    ensures var events := seq(|chunks|, i requires 0 <= i < |chunks| => Chunk(chunks[i])) + rest;
            && (rest == [] ==> Sent(events) == Joined(chunks) && StreamError(events) == None)
            && (rest != [] && rest[0].Interrupt? ==> Sent(events) == Joined(chunks) && StreamError(events) == Some(rest[0].error))
            && (rest != [] && rest[0].WriteFails? ==>
                  Sent(events) == Joined(chunks) + rest[0].written && StreamError(events) == Some(Io(rest[0].fatal)))
    decreases |chunks|
  {
    var events := seq(|chunks|, i requires 0 <= i < |chunks| => Chunk(chunks[i])) + rest;
    if chunks == [] {
      assert events == rest;
    } else {
      var later := seq(|chunks| - 1, i requires 0 <= i < |chunks| - 1 => Chunk(chunks[1..][i])) + rest;
      assert events[0] == Chunk(chunks[0]) && events[1..] == later;
      StreamExactly(chunks[1..], rest);
    }
  }

  /** One attempt keeps the partial file a prefix of the content; one that ends without an error
      makes it whole. */
  lemma AttemptKeepsPrefix(content: seq<byte>, o: Options, part: Option<seq<byte>>, response: Response)
    requires IsPrefix(part, content) && Honest(content, Start(o, part), response)
    ensures var r := Attempt(o, part, response);
            IsPrefix(r.0, content) && (r.1.None? ==> r.0 == Some(content))
  {
    if response.Status? {
      var base := if response.code == 206 && part.Some? then part.value else [];
      ReceivedIs(base, response.events);
      assert [] + Sent(response.events) == Sent(response.events);
      if response.code == 206 {
        assert part.Some? && o.resume;
        assert content == base + content[|base|..];
      }
    }
  }

  // ---- the imperative attempt ----

  class Task {
    const options: Options
    const hash: seq<byte> -> nat
    var part: Option<seq<byte>>
    var dest: Option<seq<byte>>
    var retryCount: nat

    constructor (options: Options, hash: seq<byte> -> nat, part: Option<seq<byte>>, dest: Option<seq<byte>>)
      ensures this.options == options && this.hash == hash && this.part == part && this.dest == dest && retryCount == 0
    {
      this.options := options;
      this.hash := hash;
      this.part := part;
      this.dest := dest;
      retryCount := 0;
    }

    /** Appends what a stream brings to the partial file, chunk by chunk. */
    method Receive(events: seq<StreamEvent>) returns (error: Option<DownloadError>)
      requires part.Some?
      modifies this`part
      ensures part == Some(Received(old(part).value, events).0)
      ensures error == Received(old(part).value, events).1
    {
      ghost var before := part.value;
      for k := 0 to |events|
        invariant part.Some?
        invariant Received(before, events) == Received(part.value, events[k..])
      {
        assert events[k..][0] == events[k] && events[k..][1..] == events[k + 1..];
        match events[k]
        case Chunk(bytes) => part := Some(part.value + bytes);
        case Interrupt(e) => return Some(e);
        case WriteFails(written, fatal) =>
          part := Some(part.value + written);
          return Some(Io(fatal));
      }
      return None;
    }

    /** A 200 answer starts the partial file again, a 206 answer goes on with it, and any other leaves it. */
    method DownloadOnce(response: Response) returns (error: Option<DownloadError>)
      modifies this`part
      ensures match response
              case Unreachable => part == old(part) && error == Some(Http)
              case LocalFailure(fatal) => part == old(part) && error == Some(Io(fatal))
              case CreateFails(fatal) => part == None && error == Some(Io(fatal))
              case Status(code, events) =>
                if code == 200 then part == Some(Sent(events)) && error == StreamError(events)
                else if code == 206 then
                  part == Some((if old(part).Some? then old(part).value else []) + Sent(events)) && error == StreamError(events)
                else part == old(part) && error == Some(HttpStatus(code))
      ensures (part, error) == Attempt(options, old(part), response)
    {
      match response
      case Unreachable => return Some(Http);
      case LocalFailure(fatal) => return Some(Io(fatal));
      case CreateFails(fatal) =>
        part := None;
        return Some(Io(fatal));
      case Status(code, events) =>
        if code == 200 {
          part := Some([]);
        } else if code == 206 {
          if part.None? { part := Some([]); }
        } else {
          return Some(HttpStatus(code));
        }
        ReceivedExactly(part.value, events);
        assert [] + Sent(events) == Sent(events);
        error := Receive(events);
    }

    /** The transfer loop: transient errors are retried, at most `maxRetries` times. `delays[k]`
        is what interrupts the wait after attempt `k`. */
    method Transfer(responses: seq<Response>, delays: seq<Option<UserStop>>) returns (r: Outcome, used: nat)
      requires |responses| > options.maxRetries && |delays| >= options.maxRetries
      modifies this`part, this`retryCount
      ensures TransferState(part, retryCount, r) == TransferFrom(options, TransferState(old(part), old(retryCount), Running), responses, delays, 0)
      ensures !r.Running? && 1 <= used <= options.maxRetries + 1
    {
      var attempt: nat := 0;
      ghost var all := TransferFrom(options, TransferState(part, retryCount, Running), responses, delays, 0);
      used := 0;
      while true
        invariant attempt <= options.maxRetries && used == attempt
        invariant all == TransferFrom(options, TransferState(part, retryCount, Running), responses, delays, attempt)
        decreases options.maxRetries - attempt
      {
        var error := DownloadOnce(responses[attempt]);
        used := used + 1;
        if error.None? { return Transferred, used; }
        var e := error.value;
        if IsUserInterrupt(e) { return Ended(e), used; }
        if !IsTransient(e) || attempt >= options.maxRetries { return Ended(e), used; }
        attempt := attempt + 1;
        retryCount := attempt;
        if delays[attempt - 1].Some? { return Ended(delays[attempt - 1].value), used; }
      }
    }

    /** Moves the partial file to its place. */
    method Finalize(fault: FinalFault) returns (ok: bool)
      requires part.Some?
      modifies this`part, this`dest
      ensures ok <==> fault.Clean?
      ensures fault.Clean? ==> dest == old(part) && part == None
      ensures !fault.Clean? ==> part == old(part) && dest == if fault.RenameFails? then None else old(dest)
    {
      if fault.RemoveFails? { return false; }
      dest := None;
      if fault.RenameFails? { return false; }
      dest, part := part, None;
      return true;
    }

    /** One round of the task; `Again` when a checksum mismatch starts the next one. */
    method RunRound(round: Round) returns (status: Status)
      requires |round.responses| > options.maxRetries && |round.delays| >= options.maxRetries
      modifies this`part, this`dest, this`retryCount
      ensures TaskState(part, dest, retryCount, status) == AfterRound(options, hash, TaskState(old(part), old(dest), old(retryCount), Again), round)
    {
      if round.stopped.Some? { return Stopped(round.stopped.value); }
      if options.skipIfValid && dest.Some? {
        var valid := options.expected.None? || (!round.oldHashFails && options.expected == Some(hash(dest.value)));
        if valid { return Done; }
      }
      if round.queued.Some? { return Stopped(round.queued.value); }
      var outcome, used := Transfer(round.responses, round.delays);
      if outcome.Ended? {
        if IsUserInterrupt(outcome.error) { return Stopped(outcome.error); }
        return Failed;
      }
      TransferredHasPart(options, TransferState(old(part), old(retryCount), Running), round.responses, round.delays, 0);
      if options.expected.Some? {
        if round.hashFails { return Failed; }
        if hash(part.value) != options.expected.value {
          if retryCount >= options.maxRetries { return Failed; }
          if !round.removeFails { part := None; }
          retryCount := retryCount + 1;
          if round.pausedAfter { return Stopped(Paused); }
          return Again;
        }
      }
      var ok := Finalize(round.finalFault);
      status := if ok then Done else Failed;
    }

    /** Rounds follow each other until the task ends or the script does. */
    method RunTask(rounds: seq<Round>) returns (status: Status)
      requires forall i :: 0 <= i < |rounds| ==> LongEnough(options, rounds[i])
      modifies this`part, this`dest, this`retryCount
      ensures TaskState(part, dest, retryCount, status) == AfterRounds(options, hash, TaskState(old(part), old(dest), old(retryCount), Again), rounds)
    {
      status := Again;
      ghost var all := AfterRounds(options, hash, TaskState(part, dest, retryCount, Again), rounds);
      for k := 0 to |rounds|
        invariant status == Again
        invariant all == AfterRounds(options, hash, TaskState(part, dest, retryCount, Again), rounds[k..])
      {
        assert rounds[k..][0] == rounds[k] && rounds[k..][1..] == rounds[k + 1..];
        status := RunRound(rounds[k]);
        if !status.Again? { return; }
      }
    }
  }

  // ---- the transfer loop and the rounds, as functions ----

  datatype Outcome = Running | Transferred | Ended(error: DownloadError)

  datatype TransferState = TransferState(part: Option<seq<byte>>, retryCount: nat, outcome: Outcome)

  function TransferFrom(o: Options, s: TransferState, responses: seq<Response>, delays: seq<Option<UserStop>>, attempt: nat): TransferState
    requires attempt <= o.maxRetries < |responses| && o.maxRetries <= |delays|
    decreases o.maxRetries - attempt
  {
    var r := Attempt(o, s.part, responses[attempt]);
    if r.1.None? then TransferState(r.0, s.retryCount, Transferred)
    else
      var e := r.1.value;
      if IsUserInterrupt(e) || !IsTransient(e) || attempt >= o.maxRetries then TransferState(r.0, s.retryCount, Ended(e))
      else if delays[attempt].Some? then TransferState(r.0, attempt + 1, Ended(delays[attempt].value))
      else TransferFrom(o, TransferState(r.0, attempt + 1, Running), responses, delays, attempt + 1)
  }

  lemma {:induction false} TransferredHasPart(o: Options, s: TransferState, responses: seq<Response>, delays: seq<Option<UserStop>>, attempt: nat)
    requires attempt <= o.maxRetries < |responses| && o.maxRetries <= |delays|
    ensures var t := TransferFrom(o, s, responses, delays, attempt); !t.outcome.Running? && (t.outcome.Transferred? ==> t.part.Some?)
    decreases o.maxRetries - attempt
  {
    var r := Attempt(o, s.part, responses[attempt]);
    if r.1.Some? && IsTransient(r.1.value) && attempt < o.maxRetries {
      TransferredHasPart(o, TransferState(r.0, attempt + 1, Running), responses, delays, attempt + 1);
    }
  }

  datatype FinalFault = Clean | RemoveFails | RenameFails

  /** The script of one round: what stops it before it starts or while it queues, whether the old
      file can be hashed, the attempts and the waits between them, and what the checksum, the
      removal after a mismatch and the final move meet. */
  datatype Round = Round(
    stopped: Option<UserStop>,
    oldHashFails: bool,
    queued: Option<UserStop>,
    responses: seq<Response>,
    delays: seq<Option<UserStop>>,
    hashFails: bool,
    removeFails: bool,
    pausedAfter: bool,
    finalFault: FinalFault)

  datatype Status = Again | Done | Failed | Stopped(reason: UserStop)

  datatype TaskState = TaskState(part: Option<seq<byte>>, dest: Option<seq<byte>>, retryCount: nat, status: Status)

  predicate LongEnough(o: Options, round: Round)
  {
    |round.responses| > o.maxRetries && |round.delays| >= o.maxRetries
  }

  predicate Skips(o: Options, hash: seq<byte> -> nat, dest: Option<seq<byte>>)
  {
    o.skipIfValid && dest.Some? && (o.expected.None? || o.expected == Some(hash(dest.value)))
  }

  function AfterTransfer(o: Options, hash: seq<byte> -> nat, s: TaskState, round: Round): TaskState
    requires s.part.Some?
  {
    if o.expected.Some? && round.hashFails then s.(status := Failed)
    else if o.expected.Some? && hash(s.part.value) != o.expected.value then
      if s.retryCount >= o.maxRetries then s.(status := Failed)
      else TaskState(if round.removeFails then s.part else None, s.dest, s.retryCount + 1, if round.pausedAfter then Stopped(Paused) else Again)
    else match round.finalFault
      case Clean => TaskState(None, s.part, s.retryCount, Done)
      case RemoveFails => s.(status := Failed)
      case RenameFails => s.(dest := None, status := Failed)
  }

  function AfterRound(o: Options, hash: seq<byte> -> nat, s: TaskState, round: Round): TaskState
    requires LongEnough(o, round)
  {
    if round.stopped.Some? then s.(status := Stopped(round.stopped.value))
    else if Skips(o, hash, s.dest) && !(o.expected.Some? && round.oldHashFails) then s.(status := Done)
    else if round.queued.Some? then s.(status := Stopped(round.queued.value))
    else
      TransferredHasPart(o, TransferState(s.part, s.retryCount, Running), round.responses, round.delays, 0);
      var t := TransferFrom(o, TransferState(s.part, s.retryCount, Running), round.responses, round.delays, 0);
      var after := s.(part := t.part, retryCount := t.retryCount);
      if t.outcome.Ended? then
        after.(status := if IsUserInterrupt(t.outcome.error) then Stopped(t.outcome.error) else Failed)
      else AfterTransfer(o, hash, after, round)
  }

  function AfterRounds(o: Options, hash: seq<byte> -> nat, s: TaskState, rounds: seq<Round>): TaskState
    requires forall i :: 0 <= i < |rounds| ==> LongEnough(o, rounds[i])
    decreases |rounds|
  {
    if rounds == [] then s
    else
      var t := AfterRound(o, hash, s, rounds[0]);
      if t.status.Again? then AfterRounds(o, hash, t, rounds[1..]) else t
  }

  // ---- what ends a transfer, and a round ----

  /** Errors after which a transfer may be tried again. */
  ghost predicate Passing(e: DownloadError)
  {
    e == Http || e == Io(false) || exists code: nat :: 500 <= code <= 599 && e == HttpStatus(code)
  }

  /** Main result, one attempt of a transfer: it ends with the file, or is tried again exactly when the
      error is one of a connection, of the server, or of a file operation that is not fatal, and
      retries are left; the user can end it during the wait. */
  lemma RetriedExactly(o: Options, s: TransferState, responses: seq<Response>, delays: seq<Option<UserStop>>, attempt: nat)
    requires attempt <= o.maxRetries < |responses| && o.maxRetries <= |delays|
    ensures var r, t := Attempt(o, s.part, responses[attempt]), TransferFrom(o, s, responses, delays, attempt);
            match r.1
            case None => t == TransferState(r.0, s.retryCount, Transferred)
            case Some(e) =>
              if !Passing(e) || attempt == o.maxRetries then t == TransferState(r.0, s.retryCount, Ended(e))
              else match delays[attempt]
                case Some(stop) => t == TransferState(r.0, attempt + 1, Ended(stop))
                case None => t == TransferFrom(o, TransferState(r.0, attempt + 1, Running), responses, delays, attempt + 1)
  {
    hide Attempt;
    var e := Attempt(o, s.part, responses[attempt]).1;
    if e.Some? {
      assert Passing(e.value) <==> IsTransient(e.value);
    }
  }

  /** The file at the destination makes the download unnecessary. */
  ghost predicate AlreadyDone(o: Options, hash: seq<byte> -> nat, s: TaskState, round: Round)
  {
    && o.skipIfValid && s.dest.Some?
    && (o.expected.Some? ==> !round.oldHashFails && hash(s.dest.value) == o.expected.value)
  }

  /** How a round goes on once the bytes `c` have been transferred. */
  ghost predicate EndsAs(o: Options, hash: seq<byte> -> nat, c: seq<byte>, count: nat, dest: Option<seq<byte>>, round: Round, u: TaskState)
  {
    if o.expected.Some? && (round.hashFails || (hash(c) != o.expected.value && count >= o.maxRetries)) then
      u == TaskState(Some(c), dest, count, Failed)
    else if o.expected.Some? && hash(c) != o.expected.value then
      u == TaskState(if round.removeFails then Some(c) else None, dest, count + 1, if round.pausedAfter then Stopped(Paused) else Again)
    else match round.finalFault
      case Clean => u == TaskState(None, Some(c), count, Done)
      case RemoveFails => u == TaskState(Some(c), dest, count, Failed)
      case RenameFails => u == TaskState(Some(c), None, count, Failed)
  }

  /** Main result, one round: what the user has stopped, and what is there already, is not downloaded;
      otherwise the round ends as its transfer does, and one that has succeeded by the checksum and
      the final move. */
  lemma RoundExactly(o: Options, hash: seq<byte> -> nat, s: TaskState, round: Round)
    requires LongEnough(o, round)
    ensures var u := AfterRound(o, hash, s, round);
            if round.stopped.Some? then u == s.(status := Stopped(round.stopped.value))
            else if AlreadyDone(o, hash, s, round) then u == s.(status := Done)
            else if round.queued.Some? then u == s.(status := Stopped(round.queued.value))
            else
              var t := TransferFrom(o, TransferState(s.part, s.retryCount, Running), round.responses, round.delays, 0);
              match t.outcome
              case Running => false
              case Transferred => t.part.Some? && EndsAs(o, hash, t.part.value, t.retryCount, s.dest, round, u)
              case Ended(e) =>
                u == TaskState(t.part, s.dest, t.retryCount, if e == Cancelled || e == Paused then Stopped(e) else Failed)
  {
    hide TransferFrom;
    TransferredHasPart(o, TransferState(s.part, s.retryCount, Running), round.responses, round.delays, 0);
  }

  // ---- against an honest server ----

  ghost predicate HonestTransfer(content: seq<byte>, o: Options, s: TransferState, responses: seq<Response>,
                                 delays: seq<Option<UserStop>>, attempt: nat)
    requires attempt <= o.maxRetries < |responses| && o.maxRetries <= |delays|
    decreases o.maxRetries - attempt
  {
    var r := Attempt(o, s.part, responses[attempt]);
    && Honest(content, Start(o, s.part), responses[attempt])
    && (r.1.Some? && IsTransient(r.1.value) && attempt < o.maxRetries ==>
          HonestTransfer(content, o, TransferState(r.0, attempt + 1, Running), responses, delays, attempt + 1))
  }

  lemma {:induction false} TransferKeepsPrefix(content: seq<byte>, o: Options, s: TransferState, responses: seq<Response>,
                                               delays: seq<Option<UserStop>>, attempt: nat)
    requires attempt <= o.maxRetries < |responses| && o.maxRetries <= |delays|
    requires IsPrefix(s.part, content) && HonestTransfer(content, o, s, responses, delays, attempt)
    ensures var t := TransferFrom(o, s, responses, delays, attempt);
            IsPrefix(t.part, content) && (t.outcome.Transferred? ==> t.part == Some(content))
    decreases o.maxRetries - attempt
  {
    hide Honest, IsPrefix, Attempt;
    AttemptKeepsPrefix(content, o, s.part, responses[attempt]);
    var r := Attempt(o, s.part, responses[attempt]);
    if r.1.Some? && IsTransient(r.1.value) && attempt < o.maxRetries {
      TransferKeepsPrefix(content, o, TransferState(r.0, attempt + 1, Running), responses, delays, attempt + 1);
    }
  }

  /** The rounds that are run meet an honest server. */
  ghost predicate HonestRounds(content: seq<byte>, o: Options, hash: seq<byte> -> nat, s: TaskState, rounds: seq<Round>)
    requires forall i :: 0 <= i < |rounds| ==> LongEnough(o, rounds[i])
    decreases |rounds|
  {
    rounds != [] ==>
      var t := AfterRound(o, hash, s, rounds[0]);
      && HonestTransfer(content, o, TransferState(s.part, s.retryCount, Running), rounds[0].responses, rounds[0].delays, 0)
      && (t.status.Again? ==> HonestRounds(content, o, hash, t, rounds[1..]))
  }

  /** The final file is the content and has the digest that was asked for. */
  predicate Verified(content: seq<byte>, o: Options, hash: seq<byte> -> nat, dest: Option<seq<byte>>)
  {
    dest == Some(content) && (o.expected.Some? ==> hash(content) == o.expected.value)
  }

  lemma RoundResult(content: seq<byte>, o: Options, hash: seq<byte> -> nat, s: TaskState, round: Round)
    requires LongEnough(o, round) && IsPrefix(s.part, content)
    requires HonestTransfer(content, o, TransferState(s.part, s.retryCount, Running), round.responses, round.delays, 0)
    ensures var t := AfterRound(o, hash, s, round);
            && IsPrefix(t.part, content)
            && (t.status.Done? ==> Verified(content, o, hash, t.dest) || (t.dest == s.dest && Skips(o, hash, s.dest)))
            && (t.status.Again? ==> t.dest == s.dest)
  {
    hide TransferFrom, HonestTransfer;
    TransferredHasPart(o, TransferState(s.part, s.retryCount, Running), round.responses, round.delays, 0);
    TransferKeepsPrefix(content, o, TransferState(s.part, s.retryCount, Running), round.responses, round.delays, 0);
  }

  /** Main result: from any partial file that is a prefix of the content, a run against an honest
      server leaves one, whatever pauses, failures, 200 and 206 answers, and checksum deletions
      occur; and a run that is done by moving the file leaves exactly the content, with the
      digest that was asked for. One that is done without that has found a file with that digest. */
  lemma ResumeIsCorrect(content: seq<byte>, o: Options, hash: seq<byte> -> nat, s: TaskState, rounds: seq<Round>)
    requires forall i :: 0 <= i < |rounds| ==> LongEnough(o, rounds[i])
    requires IsPrefix(s.part, content) && s.status.Again? && HonestRounds(content, o, hash, s, rounds)
    ensures var t := AfterRounds(o, hash, s, rounds);
            && (t.part.Some? ==> t.part.value <= content)
            && (t.status.Done? ==>
                  || (t.dest == Some(content) && (o.expected.Some? ==> hash(content) == o.expected.value))
                  || (o.skipIfValid && t.dest == s.dest && t.dest.Some?
                      && (o.expected.Some? ==> hash(t.dest.value) == o.expected.value)))
  {
    RunsKeepPrefix(content, o, hash, s, rounds);
  }

  lemma {:induction false} RunsKeepPrefix(content: seq<byte>, o: Options, hash: seq<byte> -> nat, s: TaskState, rounds: seq<Round>)
    requires forall i :: 0 <= i < |rounds| ==> LongEnough(o, rounds[i])
    requires IsPrefix(s.part, content) && s.status.Again? && HonestRounds(content, o, hash, s, rounds)
    ensures var t := AfterRounds(o, hash, s, rounds);
            && IsPrefix(t.part, content)
            && (t.status.Done? ==> Verified(content, o, hash, t.dest) || (t.dest == s.dest && Skips(o, hash, s.dest)))
    decreases |rounds|
  {
    hide AfterRound, HonestTransfer, IsPrefix, Verified, Skips;
    if rounds != [] {
      var t := AfterRound(o, hash, s, rounds[0]);
      RoundResult(content, o, hash, s, rounds[0]);
      if t.status.Again? {
        RunsKeepPrefix(content, o, hash, t, rounds[1..]);
      }
    }
  }

  /** Runs that follow each other, as after pauses and failures. */
  function AfterRuns(o: Options, hash: seq<byte> -> nat, s: TaskState, runs: seq<seq<Round>>): TaskState
    requires forall r :: r in runs ==> forall i :: 0 <= i < |r| ==> LongEnough(o, r[i])
    decreases |runs|
  {
    if runs == [] then s
    else
      assert runs[0] in runs;
      AfterRuns(o, hash, AfterRounds(o, hash, s.(status := Again), runs[0]), runs[1..])
  }

  ghost predicate HonestRuns(content: seq<byte>, o: Options, hash: seq<byte> -> nat, s: TaskState, runs: seq<seq<Round>>)
    requires forall r :: r in runs ==> forall i :: 0 <= i < |r| ==> LongEnough(o, r[i])
    decreases |runs|
  {
    runs != [] ==>
      assert runs[0] in runs;
      && HonestRounds(content, o, hash, s.(status := Again), runs[0])
      && HonestRuns(content, o, hash, AfterRounds(o, hash, s.(status := Again), runs[0]), runs[1..])
  }

  /** The partial file stays a prefix of the content over any sequence of runs. */
  lemma {:induction false} PrefixOverRuns(content: seq<byte>, o: Options, hash: seq<byte> -> nat, s: TaskState, runs: seq<seq<Round>>)
    requires forall r :: r in runs ==> forall i :: 0 <= i < |r| ==> LongEnough(o, r[i])
    requires IsPrefix(s.part, content) && HonestRuns(content, o, hash, s, runs)
    ensures IsPrefix(AfterRuns(o, hash, s, runs).part, content)
    decreases |runs|
  {
    hide AfterRounds, HonestRounds, IsPrefix, LongEnough;
    if runs != [] {
      assert runs[0] in runs;
      RunsKeepPrefix(content, o, hash, s.(status := Again), runs[0]);
      PrefixOverRuns(content, o, hash, AfterRounds(o, hash, s.(status := Again), runs[0]), runs[1..]);
    }
  }

  // ---- a partial file that is already whole ----

  /** A server that honours every range request (sections 14.2 and 15.5.17 of RFC 9110): without a
      range it sends everything, with one what follows its start, and behind the last byte it has
      nothing to send. It may still be out of reach or in trouble. */
  ghost predicate RangeServer(content: seq<byte>, start: nat, response: Response)
  {
    && Honest(content, start, response)
    && (response.Status? && response.code < 500 ==>
          response.code == if start == 0 then 200 else if start < |content| then 206 else 416)
    && (response.CreateFails? ==> start == 0)
  }

  ghost predicate RangeTransfer(content: seq<byte>, o: Options, s: TransferState, responses: seq<Response>,
                                delays: seq<Option<UserStop>>, attempt: nat)
    requires attempt <= o.maxRetries < |responses| && o.maxRetries <= |delays|
    decreases o.maxRetries - attempt
  {
    var r := Attempt(o, s.part, responses[attempt]);
    && RangeServer(content, Start(o, s.part), responses[attempt])
    && (r.1.Some? && IsTransient(r.1.value) && attempt < o.maxRetries ==>
          RangeTransfer(content, o, TransferState(r.0, attempt + 1, Running), responses, delays, attempt + 1))
  }

  /** Everything has been received already, and a resumed request would start behind the end. */
  predicate WholeAlready(content: seq<byte>, o: Options, part: Option<seq<byte>>)
  {
    o.resume && content != [] && part == Some(content)
  }

  lemma {:induction false} WholeStays(content: seq<byte>, o: Options, s: TransferState, responses: seq<Response>,
                                      delays: seq<Option<UserStop>>, attempt: nat)
    requires attempt <= o.maxRetries < |responses| && o.maxRetries <= |delays|
    requires WholeAlready(content, o, s.part) && RangeTransfer(content, o, s, responses, delays, attempt)
    ensures var t := TransferFrom(o, s, responses, delays, attempt); t.outcome.Ended? && t.part == s.part
    decreases o.maxRetries - attempt
  {
    var r := Attempt(o, s.part, responses[attempt]);
    if r.1.Some? && IsTransient(r.1.value) && attempt < o.maxRetries {
      WholeStays(content, o, TransferState(r.0, attempt + 1, Running), responses, delays, attempt + 1);
    }
  }

  /** The round ends with the content moved to its place. */
  ghost predicate Completes(content: seq<byte>, o: Options, hash: seq<byte> -> nat, s: TaskState, round: Round)
    requires LongEnough(o, round)
  {
    && RangeTransfer(content, o, TransferState(s.part, s.retryCount, Running), round.responses, round.delays, 0)
    && AfterRound(o, hash, s, round) == TaskState(None, Some(content), s.retryCount, Done)
  }

  /** A round in which everything works at the first attempt. */
  function SmoothRound(content: seq<byte>, o: Options, part: Option<seq<byte>>): (r: Round)
    ensures LongEnough(o, r)
  {
    var start := Min(Start(o, part), |content|);
    var answer := Status(if start == 0 then 200 else 206, [Chunk(content[start..])]);
    Round(None, false, None, seq(o.maxRetries + 1, i => answer), seq(o.maxRetries, i => None), false, false, false, Clean)
  }

  /** Asking for the rest of the content and getting it. */
  lemma RestAnswer(content: seq<byte>, o: Options, part: Option<seq<byte>>)
    requires IsPrefix(part, content) && !WholeAlready(content, o, part)
    ensures var answer := SmoothRound(content, o, part).responses[0];
            RangeServer(content, Start(o, part), answer) && Attempt(o, part, answer) == (Some(content), None)
  {
    var start := Start(o, part);
    assert part.Some? && |part.value| == |content| ==> part.value == content;
    assert start == 0 || start < |content|;
    var events := [Chunk(content[start..])];
    assert events[1..] == [] && content[start..] + [] == content[start..];
    assert Sent(events) == content[start..];
    var base := if start == 0 then [] else part.value;
    assert base + content[start..] == content;
    assert Received(base, events) == Received(content, []) == (content, None);
  }

  lemma SmoothCompletes(content: seq<byte>, o: Options, hash: seq<byte> -> nat, s: TaskState)
    requires IsPrefix(s.part, content) && !WholeAlready(content, o, s.part) && !Skips(o, hash, s.dest)
    requires o.expected.Some? ==> hash(content) == o.expected.value
    ensures Completes(content, o, hash, s, SmoothRound(content, o, s.part))
  {
    var round := SmoothRound(content, o, s.part);
    RestAnswer(content, o, s.part);
    hide Attempt, RangeServer, Start;
    assert TransferFrom(o, TransferState(s.part, s.retryCount, Running), round.responses, round.delays, 0)
           == TransferState(Some(content), s.retryCount, Transferred);
  }

  /** Main result: from a partial file that is a prefix of the content, some round ends by moving the
      content to its place exactly when the content passes the checksum and the file is not whole
      already. A whole one, left by a failed hash, a failed move or a stream error behind the last
      chunk, makes every later request start behind the end, and is never moved. */
  lemma CanCompleteExactly(content: seq<byte>, o: Options, hash: seq<byte> -> nat, s: TaskState)
    requires IsPrefix(s.part, content) && s.status.Again?
    requires o.skipIfValid && s.dest.Some? ==> o.expected.Some? && hash(s.dest.value) != o.expected.value
    ensures (exists round :: LongEnough(o, round) && Completes(content, o, hash, s, round))
            <==> !WholeAlready(content, o, s.part) && (o.expected.Some? ==> hash(content) == o.expected.value)
  {
    if !WholeAlready(content, o, s.part) && (o.expected.Some? ==> hash(content) == o.expected.value) {
      SmoothCompletes(content, o, hash, s);
    } else {
      forall round | LongEnough(o, round) && RangeTransfer(content, o, TransferState(s.part, s.retryCount, Running), round.responses, round.delays, 0)
        ensures !Completes(content, o, hash, s, round)
      {
        NeverCompletes(content, o, hash, s, round);
      }
    }
  }

  lemma NeverCompletes(content: seq<byte>, o: Options, hash: seq<byte> -> nat, s: TaskState, round: Round)
    requires LongEnough(o, round) && IsPrefix(s.part, content) && !Skips(o, hash, s.dest)
    requires RangeTransfer(content, o, TransferState(s.part, s.retryCount, Running), round.responses, round.delays, 0)
    requires WholeAlready(content, o, s.part) || (o.expected.Some? && hash(content) != o.expected.value)
    ensures !AfterRound(o, hash, s, round).status.Done?
    ensures WholeAlready(content, o, s.part) ==> AfterRound(o, hash, s, round).part == s.part && !AfterRound(o, hash, s, round).status.Again?
  {
    hide TransferFrom, RangeTransfer;
    TransferredHasPart(o, TransferState(s.part, s.retryCount, Running), round.responses, round.delays, 0);
    RangeIsHonest(content, o, TransferState(s.part, s.retryCount, Running), round.responses, round.delays, 0);
    TransferKeepsPrefix(content, o, TransferState(s.part, s.retryCount, Running), round.responses, round.delays, 0);
    if WholeAlready(content, o, s.part) {
      WholeStays(content, o, TransferState(s.part, s.retryCount, Running), round.responses, round.delays, 0);
    }
  }

  lemma {:induction false} RangeIsHonest(content: seq<byte>, o: Options, s: TransferState, responses: seq<Response>,
                                         delays: seq<Option<UserStop>>, attempt: nat)
    requires attempt <= o.maxRetries < |responses| && o.maxRetries <= |delays|
    requires RangeTransfer(content, o, s, responses, delays, attempt)
    ensures HonestTransfer(content, o, s, responses, delays, attempt)
    decreases o.maxRetries - attempt
  {
    hide Attempt, Honest;
    var r := Attempt(o, s.part, responses[attempt]);
    if r.1.Some? && IsTransient(r.1.value) && attempt < o.maxRetries {
      RangeIsHonest(content, o, TransferState(r.0, attempt + 1, Running), responses, delays, attempt + 1);
    }
  }

  /** How a whole partial file is left behind: the transfer has succeeded and the hash or the move fails. */
  lemma FailedEndLeavesWhole(content: seq<byte>, o: Options, hash: seq<byte> -> nat, s: TaskState, round: Round)
    requires LongEnough(o, round) && IsPrefix(s.part, content)
    requires HonestTransfer(content, o, TransferState(s.part, s.retryCount, Running), round.responses, round.delays, 0)
    requires TransferFrom(o, TransferState(s.part, s.retryCount, Running), round.responses, round.delays, 0).outcome.Transferred?
    requires round.stopped.None? && round.queued.None? && !Skips(o, hash, s.dest)
    requires (o.expected.Some? && round.hashFails)
             || ((o.expected.Some? ==> hash(content) == o.expected.value) && !round.finalFault.Clean?)
    ensures var t := AfterRound(o, hash, s, round); t.status.Failed? && t.part == Some(content)
  {
    hide TransferFrom, HonestTransfer;
    TransferredHasPart(o, TransferState(s.part, s.retryCount, Running), round.responses, round.delays, 0);
    TransferKeepsPrefix(content, o, TransferState(s.part, s.retryCount, Running), round.responses, round.delays, 0);
  }

  // ---- how many rounds ----

  /** The transfer of every round that is run succeeds at once. */
  ghost predicate NoTransferError(o: Options, hash: seq<byte> -> nat, s: TaskState, rounds: seq<Round>)
    requires forall i :: 0 <= i < |rounds| ==> LongEnough(o, rounds[i])
    decreases |rounds|
  {
    rounds != [] ==>
      var t := AfterRound(o, hash, s, rounds[0]);
      && Attempt(o, s.part, rounds[0].responses[0]).1.None?
      && (t.status.Again? ==> NoTransferError(o, hash, t, rounds[1..]))
  }

  lemma MismatchCounts(o: Options, hash: seq<byte> -> nat, s: TaskState, round: Round)
    requires LongEnough(o, round) && Attempt(o, s.part, round.responses[0]).1.None?
    ensures var t := AfterRound(o, hash, s, round);
            t.status.Again? ==> t.retryCount == s.retryCount + 1 <= o.maxRetries
  {
    hide Attempt;
  }

  /** While no transfer error intervenes, every checksum round raises the count, so that the task
      has ended after at most `maxRetries + 1` rounds. */
  lemma {:induction false} ChecksumRoundsEnd(o: Options, hash: seq<byte> -> nat, s: TaskState, rounds: seq<Round>)
    requires forall i :: 0 <= i < |rounds| ==> LongEnough(o, rounds[i])
    requires s.status.Again? && NoTransferError(o, hash, s, rounds) && s.retryCount <= o.maxRetries
    requires |rounds| > o.maxRetries - s.retryCount
    ensures !AfterRounds(o, hash, s, rounds).status.Again?
    decreases |rounds|
  {
    hide AfterRound, Attempt;
    MismatchCounts(o, hash, s, rounds[0]);
    var t := AfterRound(o, hash, s, rounds[0]);
    if t.status.Again? {
      ChecksumRoundsEnd(o, hash, t, rounds[1..]);
    }
  }

  /** After a transfer the count is what it was, or the number of errors in this transfer. */
  lemma {:induction false} TransferCounts(o: Options, s: TransferState, responses: seq<Response>, delays: seq<Option<UserStop>>, attempt: nat)
    requires attempt <= o.maxRetries < |responses| && o.maxRetries <= |delays|
    ensures var t := TransferFrom(o, s, responses, delays, attempt);
            t.retryCount == s.retryCount || attempt < t.retryCount <= o.maxRetries
    decreases o.maxRetries - attempt
  {
    hide Attempt;
    var r := Attempt(o, s.part, responses[attempt]);
    if r.1.Some? && IsTransient(r.1.value) && attempt < o.maxRetries {
      TransferCounts(o, TransferState(r.0, attempt + 1, Running), responses, delays, attempt + 1);
    }
  }

  /** The comment on errors promises that a file error is never retried. It is, exactly when its kind
      is not one of the fatal ones and retries are left; the count then moves past the attempt. */
  lemma FileErrorRetriedExactly(o: Options, s: TransferState, responses: seq<Response>, delays: seq<Option<UserStop>>, attempt: nat, fatal: bool)
    requires attempt <= o.maxRetries < |responses| && o.maxRetries <= |delays|
    requires Attempt(o, s.part, responses[attempt]).1 == Some(Io(fatal)) && s.retryCount <= attempt
    ensures TransferFrom(o, s, responses, delays, attempt).retryCount > attempt <==> !fatal && attempt < o.maxRetries
  {
    hide Attempt;
    var r := Attempt(o, s.part, responses[attempt]);
    if !fatal && attempt < o.maxRetries {
      TransferCounts(o, TransferState(r.0, attempt + 1, Running), responses, delays, attempt + 1);
    }
  }

  lemma AgainCounts(o: Options, hash: seq<byte> -> nat, s: TaskState, round: Round)
    requires LongEnough(o, round)
    ensures var t := AfterRound(o, hash, s, round);
            t.status.Again? ==> 1 <= t.retryCount <= o.maxRetries && (s.retryCount >= 1 ==> t.retryCount >= 2)
  {
    hide TransferFrom;
    TransferCounts(o, TransferState(s.part, s.retryCount, Running), round.responses, round.delays, 0);
  }

  /** With at most one retry, every schedule ends within two rounds. */
  lemma FewRetriesAlwaysEnd(o: Options, hash: seq<byte> -> nat, s: TaskState, rounds: seq<Round>)
    requires forall i :: 0 <= i < |rounds| ==> LongEnough(o, rounds[i])
    requires s.status.Again? && o.maxRetries <= 1 && |rounds| >= 2
    ensures !AfterRounds(o, hash, s, rounds).status.Again?
  {
    hide AfterRound;
    AgainCounts(o, hash, s, rounds[0]);
    var t := AfterRound(o, hash, s, rounds[0]);
    if t.status.Again? {
      AgainCounts(o, hash, t, rounds[1]);
      assert rounds[1..][0] == rounds[1];
    }
  }

  /** One transfer error, then the whole content with the wrong digest. */
  function MixedRound(o: Options, content: seq<byte>): (r: Round)
    ensures LongEnough(o, r)
  {
    Round(None, false, None, [Unreachable] + seq(o.maxRetries, i => Status(200, [Chunk(content)])), seq(o.maxRetries, i => None),
          false, false, false, Clean)
  }

  lemma MixedRoundAgain(o: Options, hash: seq<byte> -> nat, content: seq<byte>, s: TaskState)
    requires o.maxRetries >= 2 && o.expected.Some? && hash(content) != o.expected.value
    requires s.part.None? && s.dest.None?
    ensures AfterRound(o, hash, s, MixedRound(o, content)) == TaskState(None, None, 2, Again)
  {
    var round := MixedRound(o, content);
    var good := Status(200, [Chunk(content)]);
    assert round.responses[0] == Unreachable && round.responses[1] == good && round.delays[0].None?;
    assert [Chunk(content)][1..] == [] && [] + content == content;
    assert Received([] + content, []) == (content, None);
    assert Attempt(o, None, good) == (Some(content), None);
    var s1 := TransferState(None, 1, Running);
    assert TransferFrom(o, s1, round.responses, round.delays, 1) == TransferState(Some(content), 1, Transferred);
    assert TransferFrom(o, TransferState(None, s.retryCount, Running), round.responses, round.delays, 0)
           == TransferState(Some(content), 1, Transferred);
  }

  /** With two or more retries there is no bound, although every single loop is bounded. A
      transfer error resets the count that the checksum rounds go by, so that for every `n` there
      are `n` rounds after which the task still goes on. */
  lemma {:induction false} MixedSchedulesNeedNotEnd(o: Options, hash: seq<byte> -> nat, content: seq<byte>, retryCount: nat, n: nat)
    requires o.maxRetries >= 2 && o.expected.Some? && hash(content) != o.expected.value
    ensures AfterRounds(o, hash, TaskState(None, None, retryCount, Again), seq(n, i => MixedRound(o, content))).status.Again?
    decreases n
  {
    hide AfterRound, MixedRound;
    var s := TaskState(None, None, retryCount, Again);
    var rounds := seq(n, i => MixedRound(o, content));
    if n > 0 {
      MixedRoundAgain(o, hash, content, s);
      assert rounds[1..] == seq(n - 1, i => MixedRound(o, content));
      MixedSchedulesNeedNotEnd(o, hash, content, 2, n - 1);
    }
  }

  /** Whatever happens, from any state, the task has ended after `n` rounds. */
  ghost predicate EndsWithin(o: Options, hash: seq<byte> -> nat, n: nat)
  {
    forall s: TaskState, rounds: seq<Round> {:trigger AfterRounds(o, hash, s, rounds)} ::
      s.status.Again? && |rounds| == n && (forall i :: 0 <= i < |rounds| ==> LongEnough(o, rounds[i])) ==>
        !AfterRounds(o, hash, s, rounds).status.Again?
  }

  /** Nothing can fail the checksum: none is asked for, or all contents have it. */
  ghost predicate AlwaysMatches(o: Options, hash: seq<byte> -> nat)
  {
    o.expected.None? || forall c: seq<byte> :: hash(c) == o.expected.value
  }

  lemma MatchingEndsAtOnce(o: Options, hash: seq<byte> -> nat, s: TaskState, rounds: seq<Round>)
    requires forall i :: 0 <= i < |rounds| ==> LongEnough(o, rounds[i])
    requires AlwaysMatches(o, hash) && s.status.Again? && |rounds| == 1
    ensures !AfterRounds(o, hash, s, rounds).status.Again?
  {
    hide TransferFrom;
    var round := rounds[0];
    TransferredHasPart(o, TransferState(s.part, s.retryCount, Running), round.responses, round.delays, 0);
  }

  /** Main result: the number of rounds of a task has a bound, over all schedules, exactly when at
      most one retry is allowed or no checksum can fail. */
  lemma RoundsBoundedExactly(o: Options, hash: seq<byte> -> nat)
    ensures (exists n :: EndsWithin(o, hash, n)) <==> o.maxRetries <= 1 || AlwaysMatches(o, hash)
  {
    hide AfterRounds, LongEnough, MixedRound;
    if AlwaysMatches(o, hash) {
      forall s: TaskState, rounds: seq<Round> {:trigger AfterRounds(o, hash, s, rounds)}
        | s.status.Again? && |rounds| == 1 && (forall i :: 0 <= i < |rounds| ==> LongEnough(o, rounds[i]))
        ensures !AfterRounds(o, hash, s, rounds).status.Again?
      {
        MatchingEndsAtOnce(o, hash, s, rounds);
      }
      assert EndsWithin(o, hash, 1);
    } else if o.maxRetries <= 1 {
      forall s: TaskState, rounds: seq<Round> {:trigger AfterRounds(o, hash, s, rounds)}
        | s.status.Again? && |rounds| == 2 && (forall i :: 0 <= i < |rounds| ==> LongEnough(o, rounds[i]))
        ensures !AfterRounds(o, hash, s, rounds).status.Again?
      {
        FewRetriesAlwaysEnd(o, hash, s, rounds);
      }
      assert EndsWithin(o, hash, 2);
    } else {
      var content: seq<byte> :| hash(content) != o.expected.value;
      forall n: nat ensures !EndsWithin(o, hash, n) {
        var rounds := seq(n, i => MixedRound(o, content));
        MixedSchedulesNeedNotEnd(o, hash, content, 0, n);
        assert TaskState(None, None, 0, Again).status.Again?;
      }
    }
  }
}
