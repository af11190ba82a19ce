/** The attempt and retry loops of a download over an arbitrary server, transport and
    disk (src/hostapi/http.rs:179-413). */
module Downloader {
  import opened Wrappers
  import opened Download

  /** One read of the response body and, for data, whether writing it to disk worked. */
  datatype ReadEvent = Data(bytes: Content, written: bool) | Interrupted | Failed

  datatype Reply =
    | CallFailed(retry: bool)
    | Answer(status: nat, contentLength: Option<nat>, contentRange: string, acceptRanges: bool,
             validator: Option<string>, writable: bool, body: seq<ReadEvent>, synced: bool)

  /** A request: the position to continue from (zero for a plain GET) and the `If-Range` value. */
  datatype Request = Request(from: nat, ifRange: Option<string>)

  datatype Options = Options(retries: nat, base: nat, size: Option<nat>, sha256: Option<string>)

  /** What the rest of the machine does: every response, and whether file operations outside the body work. */
  datatype World = World(serve: (nat, Request) -> Reply, digest: Content -> string, staleRemoved: bool,
                         renamed: bool, cleaned: bool)

  datatype Outcome = Done(total: nat) | Retry | Fatal

  const MAX_U32: nat := 0xFFFF_FFFF

  /** All bytes a body delivers. */
  function Sent(body: seq<ReadEvent>): Content
  {
    if body == [] then []
    else (if body[0].Data? then body[0].bytes else []) + Sent(body[1..])
  }

  predicate Success(status: nat)
  {
    200 <= status <= 299
  }

  /** A server of one fixed content: full answers carry a prefix of it and its length, and a
      partial answer a prefix of what follows the position its Content-Range names. */
  ghost predicate HonestReply(r: Reply, x: Content)
  {
    r.Answer? && Success(r.status) ==>
      if r.status == 206 then
        var range := ParseContentRange(r.contentRange);
        range.Some? ==> range.value.1 == Some(|x|) && range.value.0 <= |x| && Sent(r.body) <= x[range.value.0..]
      else r.contentLength == Some(|x|) && Sent(r.body) <= x
  }

  ghost predicate Honest(w: World, x: Content)
  {
    forall n: nat, req: Request :: HonestReply(w.serve(n, req), x)
  }

  lemma {:induction false} SentSnoc(body: seq<ReadEvent>, i: nat)
    requires i < |body|
    ensures Sent(body[..i + 1]) == Sent(body[..i]) + (if body[i].Data? then body[i].bytes else [])
    ensures Sent(body[..i + 1]) <= Sent(body)
  {
    if i > 0 {
      SentSnoc(body[1..], i - 1);
      assert body[1..][..i] == body[..i + 1][1..] && body[1..][..i - 1] == body[..i][1..];
    } else {
      assert body[..1] == [body[0]];
    }
  }

  /** A file of that content cut, or extended with zeros, to a length. */
  function SetLen(c: Content, n: nat): (r: Content)
    ensures |r| == n
  {
    if n <= |c| then c[..n] else c + seq(n - |c|, _ => 0)
  }

  class Transfer {
    var part: Option<Content>
    var dest: Option<Content>
    var have: nat
    var ranges: bool
    var validator: Option<string>
    var expected: Option<nat>
    var made: nat
    // The pauses between attempts, in milliseconds.
    var pauses: seq<nat>
    // Every request sent, with the part file as it was at that moment.
    ghost var log: seq<(Request, Option<Content>)>

    constructor (part0: Option<Content>, dest0: Option<Content>)
      ensures part == part0 && dest == dest0 && have == 0 && !ranges && made == 0 && pauses == [] && log == []
    {
      part, dest, have, ranges, validator, expected, made := part0, dest0, 0, false, None, None, 0;
      pauses, log := [], [];
    }

    /** The bytes a Range request may continue from are a prefix of the content. */
    ghost predicate Resumable(x: Content)
      reads this
    {
      ranges && have > 0 ==> part.Some? && have <= |part.value| && part.value[..have] <= x
    }

    /** Every request so far that asked to continue did so from bytes of the content. */
    ghost predicate LogSound(x: Content)
      reads this
    {
      forall k :: 0 <= k < |log| && log[k].0.from > 0 ==>
        && log[k].1.Some?
        && log[k].0.from <= |log[k].1.value|
        && log[k].1.value[..log[k].0.from] <= x
    }

    /** Read the body to its end, appending to the part file. */
    method Stream(body: seq<ReadEvent>, synced: bool) returns (r: Outcome)
      requires part.Some?
      modifies `part, `have
      ensures part.Some? && old(part.value) <= part.value
      ensures part.value[|old(part.value)|..] <= Sent(body)
      ensures r.Done? ==> r.total == |part.value| && have == old(have)
      ensures r.Retry? ==> have == |part.value|
    {
      ghost var before := part.value;
      for i := 0 to |body|
        invariant part.Some? && part.value == before + Sent(body[..i]) && have == old(have)
      {
        SentSnoc(body, i);
        match body[i]
        case Interrupted =>
        case Failed =>
          have := |part.value|;
          return Retry;
        case Data(bytes, written) =>
          if bytes == [] {
            break;
          }
          if !written {
            return Fatal;
          }
          part := Some(part.value + bytes);
      }
      assert body[..|body|] == body;
      r := if synced then Done(|part.value|) else Fatal;
    }

    /** Decide from the status where the body goes, remembering what this answer allows later. */
    method Accept(reply: Reply, from: nat, ghost x: Content) returns (start: Option<nat>, failure: Outcome)
      requires reply.Answer?
      modifies `have, `ranges, `validator, `expected
      ensures start.None? ==> !failure.Done? && ranges == old(ranges) && (have == 0 || have == old(have))
      ensures start.Some? ==> have == old(have) && (start == Some(0) || (start == Some(from) && ranges == old(ranges)))
      ensures start.Some? && HonestReply(reply, x) ==>
                expected == Some(|x|) && start.value <= |x| && Sent(reply.body) <= x[start.value..]
    {
      failure := Fatal;
      if reply.status == 206 && from > 0 {
        var range := ParseContentRange(reply.contentRange);
        if range.None? || range.value.0 != from {
          have := 0;
          return None, Retry;
        }
        expected := if range.value.1.Some? then range.value.1
                    else if reply.contentLength.Some? then Some(from + reply.contentLength.value) else None;
        start := Some(from);
      } else if reply.status == 206 {
        start := None;
      } else if Success(reply.status) {
        expected := reply.contentLength;
        ranges := reply.contentLength.Some? && reply.acceptRanges;
        validator := reply.validator;
        start := Some(0);
      } else {
        start := None;
        failure := if reply.status == 429 || 500 <= reply.status <= 599 then Retry else Fatal;
      }
    }

    /** Hold the received length against what the server and the caller declared. */
    method Judge(total: nat, opts: Options) returns (r: Outcome)
      modifies `have
      ensures r.Done? ==> r.total == total && (expected.Some? ==> total == expected.value)
      ensures r.Done? ==> (opts.size.Some? ==> total == opts.size.value)
      ensures r.Retry? ==> have == total || have == 0
    {
      if expected.Some? {
        if total < expected.value {
          have := total;
          return Retry;
        }
        if total > expected.value {
          return Fatal;
        }
      }
      if opts.size.Some? {
        have := 0;
        if total < opts.size.value {
          return Retry;
        }
        if total > opts.size.value {
          return Fatal;
        }
      }
      r := Done(total);
    }

    /** Cut the part file where the body starts, append the body, and judge what has arrived. */
    method Receive(reply: Reply, start: nat, opts: Options, ghost x: Content) returns (r: Outcome)
      requires reply.Answer?
      modifies `part, `have
      ensures r.Done? ==> part.Some? && r.total == |part.value| && (opts.size.Some? ==> r.total == opts.size.value)
      ensures old(StartsSound(start, x)) && expected == Some(|x|) && Sent(reply.body) <= x[start..] ==>
                && (r.Done? ==> part == Some(x))
                && (r.Retry? ==> part.Some? && have <= |part.value| && part.value <= x)
    {
      if !reply.writable {
        return Fatal;
      }
      ghost var sound := StartsSound(start, x);
      part := Some(SetLen(if part.Some? then part.value else [], start));
      ghost var kept := part.value;
      assert sound ==> kept == x[..start];
      r := Stream(reply.body, reply.synced);
      Continues(x, start, kept, part.value, Sent(reply.body));
      if r.Done? {
        r := Judge(r.total, opts);
        WholePrefix(part.value, x);
      }
    }

    /** The bytes before a body's first position are already those of the content. */
    ghost predicate StartsSound(start: nat, x: Content)
      reads this
    {
      start <= |x| && (start == 0 || (part.Some? && start <= |part.value| && part.value[..start] <= x))
    }

    lemma WholePrefix(a: Content, b: Content)
      ensures a <= b && |a| == |b| ==> a == b
    {
    }

    /** One GET, continuing the bytes already there when the last full answer allowed it. */
    method Attempt(w: World, opts: Options, ghost x: Content) returns (r: Outcome)
      modifies this
      ensures dest == old(dest) && made == old(made) + 1 && pauses == old(pauses)
      ensures |log| == |old(log)| + 1 && log[..|old(log)|] == old(log)
      ensures r.Done? ==> part.Some? && r.total == |part.value| && (opts.size.Some? ==> r.total == opts.size.value)
      ensures Honest(w, x) && old(Resumable(x)) && old(LogSound(x)) ==> LogSound(x)
      ensures Honest(w, x) && old(Resumable(x)) && r.Retry? ==> Resumable(x)
      ensures Honest(w, x) && old(Resumable(x)) && r.Done? ==> part == Some(x)
    {
      var from := if ranges then have else 0;
      var request := Request(from, if from > 0 then validator else None);
      log := log + [(request, part)];
      var reply := w.serve(made, request);
      made := made + 1;
      assert Honest(w, x) ==> HonestReply(reply, x);
      hide HonestReply, Sent, Success, Honest;
      if reply.CallFailed? {
        return if reply.retry then Retry else Fatal;
      }
      var start, failure := Accept(reply, from, x);
      if start.None? {
        return failure;
      }
      r := Receive(reply, start.value, opts, x);
    }

    lemma Continues(x: Content, start: nat, kept: Content, after: Content, sent: Content)
      requires kept <= after && after[|kept|..] <= sent
      ensures start <= |x| && kept == x[..start] && sent <= x[start..] ==> after <= x
    {
    }

    /** Fetch, check, then rename onto the destination. */
    method Run(w: World, opts: Options, ghost x: Content) returns (r: Option<nat>)
      requires have == 0 && !ranges && made == 0 && pauses == [] && log == []
      modifies this
      ensures made <= Min(opts.retries + 1, MAX_U32) && |log| == made
      ensures made > 0 ==> |pauses| == made - 1
      ensures forall k :: 0 <= k < |pauses| ==> pauses[k] == Backoff(opts.base, k + 1)
      ensures r.None? ==> dest == old(dest) && (w.staleRemoved && w.cleaned ==> part == None)
      ensures r.Some? ==>
                && dest.Some? && part == None && |dest.value| == r.value
                && (opts.size.Some? ==> r.value == opts.size.value)
                && (opts.sha256.Some? ==> w.digest(dest.value) == opts.sha256.value)
      ensures Honest(w, x) ==> LogSound(x)
      ensures Honest(w, x) && r.Some? ==> dest == Some(x)
    {
      if part.Some? && !w.staleRemoved {
        return None;
      }
      part := None;
      var attempts := Min(opts.retries + 1, MAX_U32);
      var outcome := Retry;
      while outcome.Retry? && made < attempts
        invariant |pauses| == if made == 0 then 0 else if outcome.Retry? && made < attempts then made else made - 1
        invariant forall k :: 0 <= k < |pauses| ==> pauses[k] == Backoff(opts.base, k + 1)
        invariant dest == old(dest) && made <= attempts && |log| == made
        invariant outcome.Retry? && Honest(w, x) ==> Resumable(x)
        invariant Honest(w, x) ==> LogSound(x)
        invariant outcome.Done? ==> part.Some? && outcome.total == |part.value|
        invariant outcome.Done? && opts.size.Some? ==> outcome.total == opts.size.value
        invariant outcome.Done? && Honest(w, x) ==> part == Some(x)
        decreases attempts - made
      {
        outcome := Attempt(w, opts, x);
        if outcome.Retry? && made < attempts {
          pauses := pauses + [Backoff(opts.base, made)];
        }
      }
      if outcome.Done? && (opts.sha256.None? || w.digest(part.value) == opts.sha256.value) && w.renamed {
        dest, part := part, None;
        return Some(outcome.total);
      }
      if w.cleaned {
        part := None;
      }
      r := None;
    }
  }
}
