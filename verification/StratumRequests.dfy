/**
  The request bookkeeping of `StratumClient`: request ids, the map of requests still waiting for a
  response, and what a response, a job notification or a stop does to the client.
 */
module StratumRequests {
  import opened Basics
  import opened Text
  import Mining

  datatype Request = Request(methodName: string, params: map<string, string>)

  /** The `id` member of a message: `toString()` of anything but a string is empty. */
  datatype JsonId = StringId(text: string) | OtherId

  /** The members of an incoming message that the client looks at. */
  datatype Message = Message(
    id: Option<JsonId>,
    methodName: string,
    notifiedJob: Mining.Job,
    hasError: bool,
    status: string,
    session: string,
    loginJob: Mining.Job)

  function IdNumber(id: JsonId): nat {
    match id
    case StringId(text) => ToULongLong(text)
    case OtherId => ToULongLong("")
  }

  /** Anything that is not a hexadecimal digit counts as 0. */
  function HexNibble(c: char): (n: nat)
    ensures n < 16
  {
    if IsHex(c) then HexDigit(c) else 0
  }

  /** `QByteArray::toHex`. */
  function ToHex(bytes: Mining.Blob): string {
    if bytes == [] then "" else [HexChar(bytes[0] / 16), HexChar(bytes[0] % 16)] + ToHex(bytes[1..])
  }

  /** The bytes that a string of pairs of hexadecimal digits stands for. */
  function FromHex(s: string): Mining.Blob {
    if |s| < 2 then [] else [HexNibble(s[0]) * 16 + HexNibble(s[1])] + FromHex(s[2..])
  }

  function FromLittleEndian(b: Mining.Blob): nat {
    if b == [] then 0 else b[0] + 256 * FromLittleEndian(b[1..])
  }

  function SubmitParams(session: string, jobId: string, nonce: nat, result: Mining.Blob): map<string, string> {
    map["id" := session, "job_id" := jobId, "nonce" := ToHex(Mining.LittleEndian32(nonce)), "result" := ToHex(result)]
  }

  /** What the client remembers about its requests. */
  datatype Book = Book(counter: nat, active: map<nat, Request>)

  datatype Op = Send(request: Request) | Receive(id: nat) | Stop

  const EMPTY_BOOK := Book(0, map[])

  function Apply(b: Book, op: Op): Book {
    match op
    case Send(r) =>
      var id := (b.counter + 1) % TWO_TO_64;
      Book(id, b.active[id := r])
    case Receive(id) => b.(active := b.active - {id})
    case Stop => b.(active := map[])
  }

  class StratumClient {
    var requestCounter: nat
    var activeRequests: map<nat, Request>
    var session: string
    var job: Mining.Job
    var nonce: nat
    var written: seq<(nat, Request)>

    ghost function Requests(): Book
      reads this
    {
      Book(requestCounter, activeRequests)
    }

    constructor ()
      ensures Requests() == EMPTY_BOOK && session == "" && job == Mining.NO_JOB && nonce == 0 && written == []
    {
      requestCounter, activeRequests, session, job, nonce, written := 0, map[], "", Mining.NO_JOB, 0, [];
    }

    method SendRequest(r: Request)
      modifies this`requestCounter, this`activeRequests, this`written
      ensures Requests() == Apply(old(Requests()), Send(r))
      ensures written == old(written) + [(requestCounter, r)]
    {
      requestCounter := (requestCounter + 1) % TWO_TO_64;
      written := written + [(requestCounter, r)];
      activeRequests := activeRequests[requestCounter := r];
    }

    method StopClient()
      modifies this`activeRequests, this`session, this`job
      ensures Requests() == Apply(old(Requests()), Stop) && session == "" && job == Mining.NO_JOB
    {
      activeRequests := map[];
      session := "";
      job := Mining.NO_JOB;
    }

    method UpdateJob(newJob: Mining.Job)
      modifies this`job, this`nonce
      ensures newJob.id == "" ==> job == old(job) && nonce == old(nonce)
      ensures newJob.id != "" ==> job == newJob && nonce == 0
    {
      if newJob.id != "" {
        job := newJob;
        nonce := 0;
      }
    }

    method ProcessLoginResponse(m: Message)
      modifies this`activeRequests, this`session, this`job, this`nonce
      ensures m.hasError || m.status != "OK" ==>
                && Requests() == Apply(old(Requests()), Stop) && session == ""
                && job == Mining.NO_JOB && nonce == old(nonce)
      ensures !m.hasError && m.status == "OK" ==>
                && Requests() == old(Requests()) && session == m.session
                && (m.loginJob.id == "" ==> job == old(job) && nonce == old(nonce))
                && (m.loginJob.id != "" ==> job == m.loginJob && nonce == 0)
    {
      if m.hasError {
        StopClient();
        return;
      }
      if m.status != "OK" {
        StopClient();
        return;
      }
      session := m.session;
      UpdateJob(m.loginJob);
    }

    method ProcessData(m: Message)
      modifies this`activeRequests, this`session, this`job, this`nonce
      ensures m.id.None? ==> Requests() == old(Requests()) && session == old(session)
      ensures m.id.None? && (m.methodName != "job" || m.notifiedJob.id == "") ==> job == old(job) && nonce == old(nonce)
      ensures m.id.None? && m.methodName == "job" && m.notifiedJob.id != "" ==> job == m.notifiedJob && nonce == 0
      // a late, unknown or malformed id changes nothing
      ensures m.id.Some? && IdNumber(m.id.value) !in old(activeRequests) ==> unchanged(this)
      // a known id is taken out of the map, whatever the response says
      ensures m.id.Some? && IdNumber(m.id.value) in old(activeRequests) ==>
                var taken := Apply(old(Requests()), Receive(IdNumber(m.id.value)));
                if old(activeRequests)[IdNumber(m.id.value)].methodName != "login" then
                  Requests() == taken && session == old(session) && job == old(job) && nonce == old(nonce)
                else if m.hasError || m.status != "OK" then
                  Requests() == Apply(taken, Stop) && session == "" && job == Mining.NO_JOB && nonce == old(nonce)
                else
                  && Requests() == taken && session == m.session
                  && if m.loginJob.id == "" then job == old(job) && nonce == old(nonce)
                     else job == m.loginJob && nonce == 0
    {
      if m.id.None? {
        if m.methodName == "job" {
          UpdateJob(m.notifiedJob);
        }
        return;
      }
      var id := IdNumber(m.id.value);
      if id !in activeRequests {
        return;
      }
      var request := activeRequests[id];
      activeRequests := activeRequests - {id};
      if request.methodName == "login" {
        ProcessLoginResponse(m);
      }
    }

    method SubmitShare(jobId: string, shareNonce: nat, result: Mining.Blob) returns (ok: bool)
      modifies this`requestCounter, this`activeRequests, this`written
      ensures ok <==> job.id == jobId
      ensures !ok ==> unchanged(this)
      ensures ok ==> var r := Request("submit", SubmitParams(session, jobId, shareNonce, result));
                     Requests() == Apply(old(Requests()), Send(r)) && written == old(written) + [(requestCounter, r)]
    {
      ok := job.id == jobId;
      if ok {
        SendRequest(Request("submit", SubmitParams(session, jobId, shareNonce, result)));
      }
    }
  }

  // ----- what a submitted share says -----

  /** `toHex` writes two lower-case digits for each byte. */
  lemma {:induction false} HexIsLower(bytes: Mining.Blob)
    ensures |ToHex(bytes)| == 2 * |bytes|
    ensures forall c :: c in ToHex(bytes) ==> '0' <= c <= '9' || 'a' <= c <= 'f'
  {
    if bytes != [] {
      HexIsLower(bytes[1..]);
    }
  }

  lemma {:induction false} HexReadsBack(bytes: Mining.Blob)
    ensures FromHex(ToHex(bytes)) == bytes
  {
    if bytes != [] {
      var h := ToHex(bytes);
      HexReadsBack(bytes[1..]);
      assert h[2..] == ToHex(bytes[1..]);
      HexDigitOfChar(bytes[0] / 16);
      HexDigitOfChar(bytes[0] % 16);
      assert HexNibble(h[0]) * 16 + HexNibble(h[1]) == bytes[0];
    }
  }

  lemma FourBytes(n: nat)
    requires n < TWO_TO_32
    ensures n % 256 + 256 * (n / 256 % 256 + 256 * (n / 65536 % 256 + 256 * (n / 16777216 % 256))) == n
  {
    var q, r := n / 256, n / 65536;
    assert n / 16777216 == r / 256 && r / 256 < 256;
    assert r == q / 256 && r == r % 256 + 256 * (r / 256);
    assert q == q % 256 + 256 * r;
  }

  lemma NonceReadsBack(n: nat)
    requires n < TWO_TO_32
    ensures FromLittleEndian(Mining.LittleEndian32(n)) == n
  {
    var b := Mining.LittleEndian32(n);
    assert b[1..][1..] == b[2..] && b[2..][1..] == b[3..] && b[3..][1..] == [];
    var b1: int, b2: int, b3: int := b[1], b[2], b[3];
    assert FromLittleEndian(b[3..]) == b3;
    assert FromLittleEndian(b[2..]) == b2 + 256 * b3;
    assert FromLittleEndian(b[1..]) == b1 + 256 * (b2 + 256 * b3);
    FourBytes(n);
  }

  /** The parameters of a submitted share determine the share. */
  lemma SubmittedShareIsReadable(session: string, jobId: string, nonce: nat, result: Mining.Blob)
    requires nonce < TWO_TO_32
    ensures var p := SubmitParams(session, jobId, nonce, result);
            && p["id"] == session && p["job_id"] == jobId
            && FromLittleEndian(FromHex(p["nonce"])) == nonce && FromHex(p["result"]) == result
  {
    HexReadsBack(Mining.LittleEndian32(nonce));
    NonceReadsBack(nonce);
    HexReadsBack(result);
  }

  // ----- whole histories of the client -----

  function After(ops: seq<Op>): Book {
    if ops == [] then EMPTY_BOOK else Apply(After(ops[..|ops| - 1]), ops[|ops| - 1])
  }

  /** Requests sent in a history. */
  function Sends(ops: seq<Op>): nat {
    if ops == [] then 0 else Sends(ops[..|ops| - 1]) + if ops[|ops| - 1].Send? then 1 else 0
  }

  /** The id under which the operation at `i` was sent. */
  function IdOf(ops: seq<Op>, i: nat): nat
    requires i < |ops|
  {
    Sends(ops[..i + 1])
  }

  lemma {:induction false} SendsGrow(ops: seq<Op>, m: nat, n: nat)
    requires m <= n <= |ops|
    ensures Sends(ops[..m]) <= Sends(ops[..n])
    ensures (exists i :: m <= i < n && ops[i].Send?) ==> Sends(ops[..m]) < Sends(ops[..n])
    decreases n
  {
    if m < n {
      SendsGrow(ops, m, n - 1);
      assert ops[..n][..n - 1] == ops[..n - 1];
    }
  }

  /** While the counter does not wrap, ids are consecutive numbers from 1, across any number of stops. */
  lemma {:induction false} CounterCountsSends(ops: seq<Op>)
    requires Sends(ops) < TWO_TO_64
    ensures After(ops).counter == Sends(ops)
  {
    if ops != [] {
      CounterCountsSends(ops[..|ops| - 1]);
    }
  }

  /** Request ids strictly increase. */
  lemma {:induction false} IdsIncrease(ops: seq<Op>, i: nat, j: nat)
    requires i < j < |ops| && ops[i].Send? && ops[j].Send? && Sends(ops) < TWO_TO_64
    ensures 0 < IdOf(ops, i) < IdOf(ops, j)
    ensures After(ops[..i + 1]).counter == IdOf(ops, i) && After(ops[..j + 1]).counter == IdOf(ops, j)
  {
    SendsGrow(ops, 0, i + 1);
    SendsGrow(ops, i + 1, j + 1);
    SendsGrow(ops, j + 1, |ops|);
    assert ops[..|ops|] == ops;
    CounterCountsSends(ops[..i + 1]);
    CounterCountsSends(ops[..j + 1]);
  }

  /** The request at `i` was sent under `id` and has been neither stopped nor answered since. */
  ghost predicate Outstanding(ops: seq<Op>, i: nat, id: nat) {
    && i < |ops| && ops[i].Send? && IdOf(ops, i) == id
    && forall j :: i < j < |ops| ==> !ops[j].Stop? && ops[j] != Receive(id)
  }

  lemma {:induction false} ActiveIsOutstanding(ops: seq<Op>, id: nat)
    requires Sends(ops) < TWO_TO_64
    ensures id in After(ops).active ==>
              exists i: nat :: Outstanding(ops, i, id) && After(ops).active[id] == ops[i].request
  {
    if ops != [] && id in After(ops).active {
      var n := |ops| - 1;
      var before, last := ops[..n], ops[n];
      CounterCountsSends(ops);
      assert ops[..n + 1] == ops;
      if last.Send? && id == Sends(ops) {
        assert Outstanding(ops, n, id);
      } else {
        ActiveIsOutstanding(before, id);
        var i: nat :| Outstanding(before, i, id) && After(before).active[id] == before[i].request;
        assert before[..i + 1] == ops[..i + 1];
        assert Outstanding(ops, i, id);
      }
    }
  }

  lemma {:induction false} OutstandingIsActive(ops: seq<Op>, i: nat, id: nat)
    requires Sends(ops) < TWO_TO_64 && Outstanding(ops, i, id)
    ensures id in After(ops).active && After(ops).active[id] == ops[i].request
  {
    var n := |ops| - 1;
    var before := ops[..n];
    CounterCountsSends(ops);
    assert ops[..n + 1] == ops;
    if i < n {
      assert before[..i + 1] == ops[..i + 1];
      assert Outstanding(before, i, id);
      OutstandingIsActive(before, i, id);
      SendsGrow(ops, i + 1, n + 1);
    }
  }

  /** The active map holds exactly the requests sent since the last stop and not answered yet. */
  lemma {:induction false} ActiveMeansOutstanding(ops: seq<Op>, id: nat)
    requires Sends(ops) < TWO_TO_64
    ensures id in After(ops).active <==> exists i: nat :: Outstanding(ops, i, id)
    ensures forall i: nat :: Outstanding(ops, i, id) ==> After(ops).active[id] == ops[i].request
  {
    ActiveIsOutstanding(ops, id);
    forall i: nat | Outstanding(ops, i, id)
      ensures id in After(ops).active && After(ops).active[id] == ops[i].request
    {
      OutstandingIsActive(ops, i, id);
    }
  }

  /** The response at `i` finds its request. */
  ghost predicate Answers(ops: seq<Op>, i: nat, id: nat) {
    i < |ops| && ops[i] == Receive(id) && id in After(ops[..i]).active
  }

  lemma {:induction false} ActiveIdsAreUsed(ops: seq<Op>, id: nat)
    requires Sends(ops) < TWO_TO_64 && id in After(ops).active
    ensures id <= Sends(ops)
  {
    CounterCountsSends(ops);
    if ops != [] && id in After(ops[..|ops| - 1]).active {
      ActiveIdsAreUsed(ops[..|ops| - 1], id);
    }
  }

  /** An answered id is smaller than every id sent later, so it never comes back. */
  lemma {:induction false} AnsweredIdIsGone(ops: seq<Op>, i: nat, n: nat, id: nat)
    requires i < n <= |ops| && Sends(ops[..n]) < TWO_TO_64 && ops[i] == Receive(id) && id <= Sends(ops[..i])
    ensures id !in After(ops[..n]).active
    decreases n
  {
    assert ops[..n][..n - 1] == ops[..n - 1];
    if i + 1 < n {
      AnsweredIdIsGone(ops, i, n - 1, id);
      CounterCountsSends(ops[..n]);
      SendsGrow(ops, i, n - 1);
    }
  }

  lemma {:induction false} AnsweredBefore(ops: seq<Op>, i: nat, j: nat, id: nat)
    requires i < j && Sends(ops) < TWO_TO_64 && Answers(ops, i, id)
    ensures !Answers(ops, j, id)
  {
    if j < |ops| {
      SendsGrow(ops, i, |ops|);
      SendsGrow(ops, j, |ops|);
      assert ops[..|ops|] == ops;
      ActiveIdsAreUsed(ops[..i], id);
      AnsweredIdIsGone(ops, i, j, id);
    }
  }

  /** No request is answered twice: the second response to an id finds nothing. */
  lemma {:induction false} AnsweredAtMostOnce(ops: seq<Op>, i: nat, j: nat, id: nat)
    requires Sends(ops) < TWO_TO_64 && Answers(ops, i, id) && Answers(ops, j, id)
    ensures i == j
  {
    if i < j {
      AnsweredBefore(ops, i, j, id);
    } else if j < i {
      AnsweredBefore(ops, j, i, id);
    }
  }

  /** A response whose id is unknown, late or malformed leaves the books as they are. */
  lemma {:induction false} UnknownIdChangesNothing(ops: seq<Op>, id: nat)
    requires Sends(ops) < TWO_TO_64
    requires id == 0 || forall i: nat :: !Outstanding(ops, i, id)
    ensures Apply(After(ops), Receive(id)) == After(ops)
  {
    ActiveIsOutstanding(ops, id);
    if i: nat :| Outstanding(ops, i, id) {
      SendsGrow(ops, 0, i + 1);
    }
  }

  lemma OutstandingIsSmall(ops: seq<Op>, i: nat, id: nat)
    requires Outstanding(ops, i, id)
    ensures 0 < id <= Sends(ops)
  {
    SendsGrow(ops, 0, i + 1);
    SendsGrow(ops, i + 1, |ops|);
    assert ops[..|ops|] == ops;
  }

  /** A response finds a request exactly when its id is a string that spells the number of an outstanding one. */
  lemma ResponseFindsIff(ops: seq<Op>, id: JsonId)
    requires Sends(ops) < TWO_TO_64
    ensures IdNumber(id) in After(ops).active
            <==> id.StringId? && exists n: nat, i: nat :: Spells(id.text, n) && Outstanding(ops, i, n)
  {
    ActiveMeansOutstanding(ops, IdNumber(id));
    if i: nat :| Outstanding(ops, i, IdNumber(id)) {
      OutstandingIsSmall(ops, i, IdNumber(id));
      if id.StringId? {
        ParsesIffSpelled(id.text, IdNumber(id));
      }
    }
    if n: nat, i: nat :| id.StringId? && Spells(id.text, n) && Outstanding(ops, i, n) {
      OutstandingIsSmall(ops, i, n);
      ParsesIffSpelled(id.text, n);
    }
  }

  /** A response that echoes the printed id of a request is taken for the answer to that request. */
  lemma {:induction false} EchoedIdIsTheId(id: nat)
    requires id < TWO_TO_64
    ensures IdNumber(StringId(Digits(id))) == id
  {
    ValueOfDigits(id);
    DigitsParse(Digits(id));
  }
}
