/**
 The desktop-link exchange: any number of concurrent issue, consume, revoke and inspect requests, each a store
 read, a clock check and a conditional store update with other requests in between, over either of the two
 record stores. Times are milliseconds; the token digest is a parameter.
 */
module DesktopLink {
  import opened Words
  import opened Wrappers

  datatype Status = Issued | Consumed | Revoked | Expired

  datatype Record = Record(
    recordId: string, digest: seq<byte>, subject: string, organization: string, device: string,
    issuedAt: int, expiresAt: int, status: Status, consumedAt: Option<int>)

  type Records = map<string, Record>

  // ----- identifiers -----

  /** The characters JavaScript's `trim` removes. */
  predicate IsSpace(c: char) {
    || '\t' <= c <= '\r' || c == ' ' || c == '\U{A0}' || c == '\U{1680}' || '\U{2000}' <= c <= '\U{200A}'
    || c == '\U{2028}' || c == '\U{2029}' || c == '\U{202F}' || c == '\U{205F}' || c == '\U{3000}' || c == '\U{FEFF}'
  }

  predicate Blank(s: string) { forall i :: 0 <= i < |s| ==> IsSpace(s[i]) }

  /** JavaScript's `length`: UTF-16 code units. */
  function Utf16Length(s: string): nat {
    if s == [] then 0 else Utf16Length(s[..|s| - 1]) + (if s[|s| - 1] < '\U{10000}' then 1 else 2)
  }

  /** `isBoundedIdentifier`: 1 to `limit` code units and equal to its own trimming. */
  predicate BoundedIdentifier(s: string, limit: nat) {
    s != [] && Utf16Length(s) <= limit && !IsSpace(s[0]) && !IsSpace(s[|s| - 1])
  }

  /** JavaScript's `trim`. */
  function Trim(s: string): string {
    if s != [] && IsSpace(s[0]) then Trim(s[1..])
    else if s != [] && IsSpace(s[|s| - 1]) then Trim(s[..|s| - 1])
    else s
  }

  /** The controller's `requireIdentifier`, for a value that is a string. */
  function RequireIdentifier(value: string): Option<string> {
    var normalized := Trim(value);
    if Utf16Length(normalized) == 0 || Utf16Length(normalized) > 256 then None else Some(normalized)
  }

  lemma {:induction false} TrimTrims(s: string)
    ensures Trim(s) == [] || (!IsSpace(Trim(s)[0]) && !IsSpace(Trim(s)[|Trim(s)| - 1]))
    ensures Trim(s) == [] <==> Blank(s)
  {
    if s != [] && IsSpace(s[0]) {
      TrimTrims(s[1..]);
      assert Blank(s) <==> Blank(s[1..]) by { BlankParts(s, 1); }
    } else if s != [] && IsSpace(s[|s| - 1]) {
      TrimTrims(s[..|s| - 1]);
      assert Blank(s) <==> Blank(s[..|s| - 1]) by { BlankParts(s, |s| - 1); }
    }
  }

  /** What is trimmed off is blank: the result is the value between two runs of spaces. */
  lemma {:induction false} TrimIsInner(s: string) returns (i: nat, j: nat)
    ensures Inner(s, Trim(s), i, j)
  {
    i, j := 0, |s|;
    if s != [] && IsSpace(s[0]) {
      i, j := TrimIsInner(s[1..]);
      InnerAfterSpace(s, Trim(s), i, j);
      i, j := 1 + i, 1 + j;
    } else if s != [] && IsSpace(s[|s| - 1]) {
      i, j := TrimIsInner(s[..|s| - 1]);
      InnerBeforeSpace(s, Trim(s), i, j);
    } else {
      assert s[0..|s|] == s && s[..0] == [] && s[|s|..] == [];
    }
  }

  predicate Inner(s: string, t: string, i: nat, j: nat) {
    i <= j <= |s| && t == s[i..j] && Blank(s[..i]) && Blank(s[j..])
  }

  lemma {:induction false} InnerAfterSpace(s: string, t: string, i: nat, j: nat)
    requires s != [] && IsSpace(s[0]) && Inner(s[1..], t, i, j)
    ensures Inner(s, t, 1 + i, 1 + j)
  {
    assert s[1..][i..j] == s[1 + i..1 + j] && s[1..][j..] == s[1 + j..] && s[..1 + i] == [s[0]] + s[1..][..i];
  }

  lemma {:induction false} InnerBeforeSpace(s: string, t: string, i: nat, j: nat)
    requires s != [] && IsSpace(s[|s| - 1]) && Inner(s[..|s| - 1], t, i, j)
    ensures Inner(s, t, i, j)
  {
    var init := s[..|s| - 1];
    assert init[i..j] == s[i..j] && init[..i] == s[..i] && s[j..] == init[j..] + [s[|s| - 1]];
  }

  lemma {:induction false} BlankParts(s: string, n: nat)
    requires n <= |s|
    ensures Blank(s) <==> Blank(s[..n]) && Blank(s[n..])
  {
    assert forall i :: n <= i < |s| ==> s[i] == s[n..][i - n];
  }

  /** What the controller lets through is a bounded identifier, and it refuses exactly blank and over-long values. */
  lemma {:induction false} RequiredIdentifierIsBounded(value: string)
    ensures RequireIdentifier(value).Some? ==> BoundedIdentifier(RequireIdentifier(value).value, 256)
    ensures RequireIdentifier(value).None? <==> Blank(value) || Utf16Length(Trim(value)) > 256
    ensures RequireIdentifier(value).Some? ==>
              exists i: nat, j: nat :: Inner(value, RequireIdentifier(value).value, i, j)
  {
    TrimTrims(value);
    var i, j := TrimIsInner(value);
  }

  // ----- the two stores -----

  datatype StoreKind = Memory | Sql

  /** A PostgreSQL `text` value holds any characters but U+0000. */
  predicate Textual(s: string) { '\0' !in s }

  /** Both the identifier check and the table's `text` columns take it. */
  predicate Storable(r: Record) { StorableParts(r.recordId, r.subject, r.organization, r.device) }

  predicate StorableParts(recordId: string, subject: string, organization: string, device: string) {
    && BoundedIdentifier(recordId, 128) && BoundedIdentifier(subject, 128)
    && BoundedIdentifier(organization, 128) && BoundedIdentifier(device, 256)
    && Textual(recordId) && Textual(subject) && Textual(organization) && Textual(device)
  }

  /** An id that passes the store's check and then fails the query it is a parameter of. */
  predicate Unqueryable(id: string) { BoundedIdentifier(id, 128) && !Textual(id) }

  /** `toDesktopLinkRecord` keeps the row, which can only hold texts. */
  predicate ReadableRow(r: Record) {
    Storable(r) && r.expiresAt > r.issuedAt && (r.status.Consumed? <==> r.consumedAt.Some?)
  }

  /** None when the store throws. */
  function Put(k: StoreKind, records: Records, r: Record): Option<Records> {
    if k.Sql? && !(r.status.Issued? && ReadableRow(r)) then None
    else if r.recordId in records then None
    else Some(records[r.recordId := r])
  }

  function Get(k: StoreKind, records: Records, id: string): Option<Record> {
    if k.Sql? && !BoundedIdentifier(id, 128) then None
    else if id !in records then None
    else if k.Sql? && !ReadableRow(records[id]) then None
    else Some(records[id])
  }

  function ConsumeIfIssued(k: StoreKind, records: Records, id: string, digest: seq<byte>, at: int)
      : (Records, Option<Record>)
  {
    if k.Sql? && !BoundedIdentifier(id, 128) then (records, None)
    else if id !in records || !records[id].status.Issued? || records[id].digest != digest then (records, None)
    else if k.Sql? && !(records[id].issuedAt <= at < records[id].expiresAt) then (records, None)
    else
      var consumed := records[id].(status := Consumed, consumedAt := Some(at));
      (records[id := consumed], if k.Sql? && !ReadableRow(consumed) then None else Some(consumed))
  }

  function RevokeIfIssued(k: StoreKind, records: Records, id: string, subject: string, organization: string, at: int)
      : (Records, Option<Record>) {
    var identified :=
      BoundedIdentifier(id, 128) && BoundedIdentifier(subject, 128) && BoundedIdentifier(organization, 128);
    if k.Sql? && !identified then (records, None)
    else if id !in records || !records[id].status.Issued? then (records, None)
    else if records[id].subject != subject || records[id].organization != organization then (records, None)
    else if !(records[id].issuedAt <= at < records[id].expiresAt) then (records, None)
    else
      var revoked := if k.Sql? then records[id].(status := Revoked, consumedAt := None)
        else records[id].(status := Revoked);
      (records[id := revoked], if k.Sql? && !ReadableRow(revoked) then None else Some(revoked))
  }

  // ----- requests -----

  const DEFAULT_TTL_MS := 300_000
  const MIN_TTL_MS := 30_000
  const MAX_TTL_MS := 600_000

  /** `issue` draws its record id and exchange token at random. */
  datatype Request =
    | Issue(subject: string, organization: string, permitted: bool, device: string, ttlMs: Option<int>,
      recordId: string, token: string)
    | Consume(subject: string, organization: string, device: string, recordId: string, token: string)
    | Revoke(subject: string, organization: string, recordId: string)
    | Inspect(subject: string, organization: string, recordId: string)

  datatype Outcome =
    | Linked(recordId: string, subject: string, organization: string, device: string, at: int)
    | Snapshot(recordId: string, organization: string, device: string, status: Status, expiresAt: int,
      consumedAt: Option<int>)
    | Offered(recordId: string, expiresAt: int)
    | Denied
    | StoreFailed

  datatype Pc =
    | Begin
    | Got(record: Option<Record>)
    | Commit(now: int)
    | Done(outcome: Outcome)

  /** `winners` and `issuers` remember which request's update consumed and created each record. */
  datatype State = State(
    records: Records, clock: int, requests: seq<Request>, pcs: seq<Pc>, winners: map<string, nat>,
    issuers: map<string, nat>)

  datatype Choice = Arrive(request: Request) | Tick(ms: nat) | Act(t: nat)

  function Ttl(r: Request): int
    requires r.Issue?
  {
    if r.ttlMs.Some? then r.ttlMs.value else DEFAULT_TTL_MS
  }

  /** What `issue` checks before it creates a record. */
  predicate Issuable(r: Request)
    requires r.Issue?
  {
    !Blank(r.device) && r.permitted && MIN_TTL_MS <= Ttl(r) <= MAX_TTL_MS
  }

  predicate NonEmptyArguments(r: Request) {
    match r
    case Issue(_, _, _, device, _, _, _) => !Blank(device)
    case Consume(subject, organization, device, recordId, token) =>
      !Blank(subject) && !Blank(organization) && !Blank(device) && !Blank(recordId) && !Blank(token)
    case Revoke(subject, organization, recordId) => !Blank(subject) && !Blank(organization) && !Blank(recordId)
    case Inspect(subject, organization, recordId) => !Blank(subject) && !Blank(organization) && !Blank(recordId)
  }

  function SnapshotOf(r: Record, status: Status): Outcome {
    Snapshot(r.recordId, r.organization, r.device, status, r.expiresAt, r.consumedAt)
  }

  /** What `revoke` answers. */
  function RevokedSnapshot(r: Record): Outcome {
    Snapshot(r.recordId, r.organization, r.device, Revoked, r.expiresAt, None)
  }

  /** What a request does once it has read its record: decide, or go on to the conditional update. */
  function Decide(digest: string -> seq<byte>, request: Request, found: Option<Record>, now: int): Pc {
    match request
    case Issue(_, _, _, _, _, _, _) => Done(Denied)
    case Consume(subject, organization, device, recordId, token) =>
      if found.None? || !found.value.status.Issued? || found.value.digest != digest(token) then Done(Denied)
      else if now >= found.value.expiresAt then Done(Denied)
      else if found.value.subject != subject || found.value.organization != organization || found.value.device != device
        then Done(Denied)
      else Commit(now)
    case Revoke(subject, organization, recordId) =>
      if found.None? || found.value.subject != subject || found.value.organization != organization then Done(Denied)
      else if found.value.status.Revoked? then Done(RevokedSnapshot(found.value))
      else if !found.value.status.Issued? || now >= found.value.expiresAt then Done(Denied)
      else Commit(now)
    case Inspect(subject, organization, recordId) =>
      if found.None? || found.value.subject != subject || found.value.organization != organization then Done(Denied)
      else
        var expired := found.value.status.Issued? && now >= found.value.expiresAt;
        Done(SnapshotOf(found.value, if expired then Expired else found.value.status))
  }

  function NewRecord(digest: string -> seq<byte>, r: Request, now: int): Record
    requires r.Issue?
  {
    Record(r.recordId, digest(r.token), r.subject, r.organization, r.device, now, now + Ttl(r), Issued, None)
  }

  function BeginRequest(k: StoreKind, s: State, r: Request): Pc {
    if !NonEmptyArguments(r) then Done(Denied)
    else if r.Issue? then
      if r.permitted && MIN_TTL_MS <= Ttl(r) <= MAX_TTL_MS then Commit(s.clock) else Done(Denied)
    else if k.Sql? && Unqueryable(r.recordId) then Done(StoreFailed)
    else Got(Get(k, s.records, r.recordId))
  }

  /** The conditional update and the answer it leads to. */
  function CommitRequest(k: StoreKind, digest: string -> seq<byte>, s: State, t: nat, now: int): State
    requires t < |s.requests| && t < |s.pcs|
  {
    var r := s.requests[t];
    match r
    case Issue(_, _, _, _, _, recordId, _) =>
      var put := Put(k, s.records, NewRecord(digest, r, now));
      if put.None? then s.(pcs := s.pcs[t := Done(StoreFailed)])
      else s.(records := put.value, issuers := s.issuers[recordId := t],
        pcs := s.pcs[t := Done(Offered(recordId, now + Ttl(r)))])
    case Consume(_, _, _, recordId, token) =>
      var (records, won) := ConsumeIfIssued(k, s.records, recordId, digest(token), now);
      var outcome := if won.None? then Denied
        else Linked(won.value.recordId, won.value.subject, won.value.organization, won.value.device, now);
      s.(records := records, winners := if won.Some? then s.winners[recordId := t]
        else s.winners, pcs := s.pcs[t := Done(outcome)])
    case Revoke(subject, organization, recordId) =>
      var (records, revoked) := RevokeIfIssued(k, s.records, recordId, subject, organization, now);
      var outcome := if revoked.None? then Denied else RevokedSnapshot(revoked.value);
      s.(records := records, pcs := s.pcs[t := Done(outcome)])
    case Inspect(_, _, _) => s.(pcs := s.pcs[t := Done(Denied)])
  }

  function Step(k: StoreKind, digest: string -> seq<byte>, s: State, c: Choice): State {
    match c
    case Arrive(request) => s.(requests := s.requests + [request], pcs := s.pcs + [Begin])
    case Tick(ms) => s.(clock := s.clock + ms)
    case Act(t) =>
      if t >= |s.pcs| || t >= |s.requests| then s
      else match s.pcs[t]
        case Begin => s.(pcs := s.pcs[t := BeginRequest(k, s, s.requests[t])])
        case Got(record) => s.(pcs := s.pcs[t := Decide(digest, s.requests[t], record, s.clock)])
        case Commit(now) => CommitRequest(k, digest, s, t, now)
        case Done(_) => s
  }

  function Run(k: StoreKind, digest: string -> seq<byte>, start: int, choices: seq<Choice>): State {
    if |choices| == 0 then State(map[], start, [], [], map[], map[])
    else Step(k, digest, Run(k, digest, start, choices[..|choices| - 1]), choices[|choices| - 1])
  }

  // ----- invariant -----

  predicate SameLink(a: Record, b: Record) {
    a.(status := b.status, consumedAt := b.consumedAt) == b
  }

  ghost predicate RecordOk(digest: string -> seq<byte>, s: State, id: string, r: Record) {
    && r.recordId == id && r.issuedAt < r.expiresAt && r.issuedAt <= s.clock && !r.status.Expired?
    && (r.status.Consumed? <==> r.consumedAt.Some?)
    && (r.consumedAt.Some? ==> r.issuedAt <= r.consumedAt.value < r.expiresAt)
    && id in s.issuers && s.issuers[id] < |s.requests|
    && var issue := s.requests[s.issuers[id]];
       issue.Issue? && SameLink(r, NewRecord(digest, issue, r.issuedAt))
  }

  /** A copy of a record read earlier: same link, and never ahead of the store. */
  ghost predicate CopyOk(s: State, id: string, r: Record) {
    && id in s.records && SameLink(r, s.records[id]) && (!r.status.Issued? ==> r == s.records[id])
    && !r.status.Expired? && (r.status.Consumed? <==> r.consumedAt.Some?)
  }

  ghost predicate PcOk(digest: string -> seq<byte>, s: State, t: nat, r: Request, pc: Pc) {
    match pc
    case Begin => true
    case Got(found) => !r.Issue? && (found.Some? ==> CopyOk(s, r.recordId, found.value))
    case Commit(now) =>
      && now <= s.clock && !r.Inspect?
      && (r.Issue? ==> Issuable(r))
      && (r.Consume? || r.Revoke? ==>
            && r.recordId in s.records && s.records[r.recordId].issuedAt <= now < s.records[r.recordId].expiresAt
            && s.records[r.recordId].subject == r.subject && s.records[r.recordId].organization == r.organization)
      && (r.Consume? ==> s.records[r.recordId].device == r.device && s.records[r.recordId].digest == digest(r.token))
    case Done(Linked(id, subject, organization, device, at)) =>
      && r.Consume? && id == r.recordId && id in s.records && s.records[id].status.Consumed?
      && s.records[id].consumedAt == Some(at)
      && id in s.winners && s.winners[id] == t
      && r.subject == subject == s.records[id].subject && r.organization == organization == s.records[id].organization
      && r.device == device == s.records[id].device && s.records[id].digest == digest(r.token)
    case Done(Offered(id, expiresAt)) =>
      && r.Issue? && id == r.recordId && id in s.records && s.records[id].expiresAt == expiresAt
      && id in s.issuers && s.issuers[id] == t
    case Done(Snapshot(id, organization, device, status, expiresAt, consumedAt)) =>
      && (r.Revoke? || r.Inspect?) && id == r.recordId && id in s.records
      && var link := s.records[id];
      && link.subject == r.subject && organization == link.organization == r.organization && device == link.device
      && expiresAt == link.expiresAt && consumedAt == (if status.Consumed? then link.consumedAt else None)
      && (r.Revoke? ==> status.Revoked?) && (status.Revoked? || status.Consumed? ==> link.status == status)
      && (status.Expired? ==> link.expiresAt <= s.clock)
    case Done(_) => true
  }

  ghost predicate RecordsOk(digest: string -> seq<byte>, s: State) {
    forall id :: id in s.records ==> RecordOk(digest, s, id, s.records[id])
  }

  ghost predicate PcsOk(digest: string -> seq<byte>, s: State) {
    |s.pcs| == |s.requests| && forall t :: 0 <= t < |s.pcs| ==> PcOk(digest, s, t, s.requests[t], s.pcs[t])
  }

  ghost predicate Inv(digest: string -> seq<byte>, s: State) { RecordsOk(digest, s) && PcsOk(digest, s) }

  /** From s to u only the outside world moved, or a record went from issued to its final state. */
  ghost predicate Later(s: State, u: State) {
    && s.clock <= u.clock && |s.requests| <= |u.requests| && u.requests[..|s.requests|] == s.requests
    && (forall id :: id in s.records ==>
          && id in u.records && SameLink(s.records[id], u.records[id])
          && (id in s.issuers ==> id in u.issuers && u.issuers[id] == s.issuers[id])
          && (!s.records[id].status.Issued? ==>
             u.records[id] == s.records[id] && (id in s.winners ==> id in u.winners && u.winners[id] == s.winners[id])))
  }

  lemma {:induction false} PcStable(digest: string -> seq<byte>, s: State, u: State, t: nat, r: Request, pc: Pc)
    requires PcOk(digest, s, t, r, pc) && Later(s, u)
    ensures PcOk(digest, u, t, r, pc)
  {
  }

  lemma {:induction false} RecordStable(digest: string -> seq<byte>, s: State, u: State, id: string)
    requires id in s.records && RecordOk(digest, s, id, s.records[id]) && Later(s, u) && id in u.records
    requires u.records[id] == s.records[id]
    ensures RecordOk(digest, u, id, u.records[id])
  {
    assert u.requests[..|s.requests|][s.issuers[id]] == s.requests[s.issuers[id]];
  }

  /** Preservation for a step that changes no record. */
  lemma {:induction false} QuietStep(digest: string -> seq<byte>, s: State, u: State)
    requires Inv(digest, s) && Later(s, u) && u.records == s.records
    ensures RecordsOk(digest, u)
  {
    forall id | id in u.records ensures RecordOk(digest, u, id, u.records[id]) { RecordStable(digest, s, u, id); }
    hide RecordOk, Later;
  }

  /** The acting thread's new program counter is fine and everyone else's still is. */
  lemma {:induction false} OthersStable(digest: string -> seq<byte>, s: State, u: State, t: nat)
    requires PcsOk(digest, s) && Later(s, u) && u.requests == s.requests && t < |s.pcs| == |u.pcs|
    requires u.pcs == s.pcs[t := u.pcs[t]]
    requires PcOk(digest, u, t, s.requests[t], u.pcs[t])
    ensures PcsOk(digest, u)
  {
    forall i | 0 <= i < |u.pcs| ensures PcOk(digest, u, i, u.requests[i], u.pcs[i]) {
      if i != t { PcStable(digest, s, u, i, s.requests[i], s.pcs[i]); }
    }
    hide PcOk, Later;
  }

  lemma {:induction false} ActBegin(k: StoreKind, digest: string -> seq<byte>, s: State, t: nat)
    requires Inv(digest, s) && t < |s.pcs| && s.pcs[t].Begin?
    ensures Inv(digest, Step(k, digest, s, Act(t))) && Later(s, Step(k, digest, s, Act(t)))
  {
    var u := Step(k, digest, s, Act(t));
    assert Later(s, u);
    QuietStep(digest, s, u);
    OthersStable(digest, s, u, t);
    hide RecordsOk, PcsOk;
  }

  lemma {:induction false} ActDecide(k: StoreKind, digest: string -> seq<byte>, s: State, t: nat)
    requires Inv(digest, s) && t < |s.pcs| && s.pcs[t].Got?
    ensures Inv(digest, Step(k, digest, s, Act(t))) && Later(s, Step(k, digest, s, Act(t)))
  {
    var u := Step(k, digest, s, Act(t));
    var r, found := s.requests[t], s.pcs[t].record;
    assert Later(s, u);
    assert PcOk(digest, s, t, r, s.pcs[t]);
    if found.Some? { assert RecordOk(digest, s, r.recordId, s.records[r.recordId]); }
    QuietStep(digest, s, u);
    hide RecordsOk, PcsOk;
    OthersStable(digest, s, u, t);
  }

  /** Preservation for a step that changes the record `changed` only. */
  lemma {:induction false} OneRecordStep(digest: string -> seq<byte>, s: State, u: State, changed: string)
    requires RecordsOk(digest, s) && Later(s, u) && changed in u.records
    requires RecordOk(digest, u, changed, u.records[changed])
    requires forall id :: id in u.records && id != changed ==> id in s.records && u.records[id] == s.records[id]
    ensures RecordsOk(digest, u)
  {
    forall id | id in u.records ensures RecordOk(digest, u, id, u.records[id]) {
      if id != changed { RecordStable(digest, s, u, id); }
    }
    hide RecordOk, Later;
  }

  /** A step that only sets one program counter. */
  lemma {:induction false} PcOnlyStep(digest: string -> seq<byte>, s: State, t: nat, pc: Pc)
    requires Inv(digest, s) && t < |s.pcs| && PcOk(digest, s, t, s.requests[t], pc)
    ensures Inv(digest, s.(pcs := s.pcs[t := pc])) && Later(s, s.(pcs := s.pcs[t := pc]))
  {
    var u := s.(pcs := s.pcs[t := pc]);
    assert Later(s, u);
    PcStable(digest, s, u, t, s.requests[t], pc);
    QuietStep(digest, s, u);
    OthersStable(digest, s, u, t);
    hide RecordsOk, PcsOk, PcOk, Later;
  }

  /** A new record appears under a fresh id. */
  lemma {:induction false} CreateRecord(digest: string -> seq<byte>, s: State, t: nat, r: Record, pc: Pc)
    requires Inv(digest, s) && t < |s.pcs| && s.requests[t].Issue? && r.recordId !in s.records
    requires r == NewRecord(digest, s.requests[t], r.issuedAt) && r.issuedAt < r.expiresAt && r.issuedAt <= s.clock
    requires pc == Done(Offered(r.recordId, r.expiresAt))
    ensures var u :=
            s.(records := s.records[r.recordId := r], issuers := s.issuers[r.recordId := t], pcs := s.pcs[t := pc]);
            Inv(digest, u) && Later(s, u)
  {
    var u := s.(records := s.records[r.recordId := r], issuers := s.issuers[r.recordId := t], pcs := s.pcs[t := pc]);
    assert Later(s, u);
    assert RecordOk(digest, u, r.recordId, r);
    assert PcOk(digest, u, t, s.requests[t], pc);
    hide RecordsOk, PcsOk, PcOk, Later, RecordOk;
    OthersStable(digest, s, u, t);
    OneRecordStep(digest, s, u, r.recordId);
  }

  lemma {:induction false} CommitIssue(k: StoreKind, digest: string -> seq<byte>, s: State, t: nat)
    requires Inv(digest, s) && t < |s.pcs| && s.pcs[t].Commit? && s.requests[t].Issue?
    ensures Inv(digest, Step(k, digest, s, Act(t))) && Later(s, Step(k, digest, s, Act(t)))
  {
    var u := Step(k, digest, s, Act(t));
    var r, now := s.requests[t], s.pcs[t].now;
    assert PcOk(digest, s, t, r, s.pcs[t]);
    hide RecordsOk, PcsOk, Later, RecordOk;
    if Put(k, s.records, NewRecord(digest, r, now)).None? {
      PcOnlyStep(digest, s, t, u.pcs[t]);
    } else {
      CreateRecord(digest, s, t, NewRecord(digest, r, now), u.pcs[t]);
    }
  }

  lemma {:induction false} FinishIsLater(s: State, u: State, id: string, r: Record)
    requires id in s.records && s.records[id].status.Issued? && SameLink(s.records[id], r)
    requires u == s.(records := s.records[id := r], winners := u.winners, pcs := u.pcs)
    requires forall other :: other in s.winners && other != id ==>
               other in u.winners && u.winners[other] == s.winners[other]
    ensures Later(s, u)
  {
  }

  /** An issued record takes its final state. */
  lemma {:induction false} FinishRecord(digest: string -> seq<byte>, s: State, u: State, t: nat, id: string, r: Record)
    requires Inv(digest, s) && t < |s.pcs| && id in s.records && s.records[id].status.Issued?
    requires SameLink(s.records[id], r)
    requires r.status.Consumed? || r.status.Revoked?
    requires r.consumedAt.Some? <==> r.status.Consumed?
    requires r.consumedAt.Some? ==> r.issuedAt <= r.consumedAt.value < r.expiresAt
    requires |u.pcs| == |s.pcs|
    requires u == s.(records := s.records[id := r], winners := u.winners, pcs := s.pcs[t := u.pcs[t]])
    requires forall other :: other in s.winners && other != id ==>
               other in u.winners && u.winners[other] == s.winners[other]
    requires PcOk(digest, u, t, s.requests[t], u.pcs[t])
    ensures Inv(digest, u) && Later(s, u)
  {
    assert RecordOk(digest, s, id, s.records[id]);
    assert RecordOk(digest, u, id, r);
    hide RecordsOk, PcsOk, PcOk, RecordOk, Later;
    FinishIsLater(s, u, id, r);
    OthersStable(digest, s, u, t);
    OneRecordStep(digest, s, u, id);
  }

  lemma {:induction false} LinkedIsOk(digest: string -> seq<byte>, s: State, t: nat, r: Request, at: int)
    requires r.Consume? && r.recordId in s.records && s.records[r.recordId].status.Consumed?
    requires s.records[r.recordId].consumedAt == Some(at)
    requires r.recordId in s.winners && s.winners[r.recordId] == t && s.records[r.recordId].digest == digest(r.token)
    requires var link := s.records[r.recordId];
             r.subject == link.subject && r.organization == link.organization && r.device == link.device
    ensures PcOk(digest, s, t, r, Done(Linked(r.recordId, r.subject, r.organization, r.device, at)))
  {
  }

  lemma {:induction false} DeniedIsOk(digest: string -> seq<byte>, s: State, t: nat, r: Request)
    ensures PcOk(digest, s, t, r, Done(Denied))
  {
  }

  lemma {:induction false} CommitConsume(k: StoreKind, digest: string -> seq<byte>, s: State, t: nat)
    requires Inv(digest, s) && t < |s.pcs| && s.pcs[t].Commit? && s.requests[t].Consume?
    ensures Inv(digest, Step(k, digest, s, Act(t))) && Later(s, Step(k, digest, s, Act(t)))
  {
    var u := Step(k, digest, s, Act(t));
    var r, now := s.requests[t], s.pcs[t].now;
    assert PcOk(digest, s, t, r, s.pcs[t]);
    var link := s.records[r.recordId];
    assert RecordOk(digest, s, r.recordId, link);
    SameLinkOfStatus(link, Consumed, Some(now));
    hide RecordsOk, PcsOk, Later, SameLink, RecordOk, PcOk, ReadableRow, BoundedIdentifier;
    DeniedIsOk(digest, s, t, r);
    DeniedIsOk(digest, u, t, r);
    if ConsumeIfIssued(k, s.records, r.recordId, digest(r.token), now).0 == s.records {
      PcOnlyStep(digest, s, t, u.pcs[t]);
    } else {
      if u.pcs[t] != Done(Denied) { LinkedIsOk(digest, u, t, r, now); }
      FinishRecord(digest, s, u, t, r.recordId, link.(status := Consumed, consumedAt := Some(now)));
    }
  }

  lemma {:induction false} SameLinkOfStatus(r: Record, status: Status, consumedAt: Option<int>)
    ensures SameLink(r, r.(status := status, consumedAt := consumedAt))
  {
  }

  lemma {:induction false} RevokedIsOk(digest: string -> seq<byte>, s: State, t: nat, r: Request, revoked: Record)
    requires r.Revoke? && revoked.recordId == r.recordId && r.recordId in s.records
    requires s.records[r.recordId].status.Revoked?
    requires SameLink(revoked, s.records[r.recordId])
    requires revoked.subject == r.subject && revoked.organization == r.organization
    ensures PcOk(digest, s, t, r, Done(RevokedSnapshot(revoked)))
  {
  }

  lemma {:induction false} CommitRevoke(k: StoreKind, digest: string -> seq<byte>, s: State, t: nat)
    requires Inv(digest, s) && t < |s.pcs| && s.pcs[t].Commit? && s.requests[t].Revoke?
    ensures Inv(digest, Step(k, digest, s, Act(t))) && Later(s, Step(k, digest, s, Act(t)))
  {
    var u := Step(k, digest, s, Act(t));
    var r, now := s.requests[t], s.pcs[t].now;
    assert PcOk(digest, s, t, r, s.pcs[t]);
    assert RecordOk(digest, s, r.recordId, s.records[r.recordId]);
    hide RecordsOk, PcsOk, Later, SameLink, RecordOk, PcOk, ReadableRow, BoundedIdentifier;
    DeniedIsOk(digest, s, t, r);
    DeniedIsOk(digest, u, t, r);
    if RevokeIfIssued(k, s.records, r.recordId, r.subject, r.organization, now).0 == s.records {
      PcOnlyStep(digest, s, t, u.pcs[t]);
    } else {
      var revoked := s.records[r.recordId].(status := Revoked);
      assert SameLink(s.records[r.recordId], revoked)
             by { SameLinkOfStatus(s.records[r.recordId], Revoked, s.records[r.recordId].consumedAt); }
      RevokedIsOk(digest, u, t, r, revoked);
      FinishRecord(digest, s, u, t, r.recordId, revoked);
    }
  }

  lemma {:induction false} OutsideStep(k: StoreKind, digest: string -> seq<byte>, s: State, c: Choice)
    requires Inv(digest, s) && !c.Act?
    ensures Inv(digest, Step(k, digest, s, c)) && Later(s, Step(k, digest, s, c))
  {
    var u := Step(k, digest, s, c);
    assert Later(s, u);
    QuietStep(digest, s, u);
    forall i | 0 <= i < |u.pcs| ensures PcOk(digest, u, i, u.requests[i], u.pcs[i]) {
      if i < |s.pcs| { PcStable(digest, s, u, i, s.requests[i], s.pcs[i]); }
    }
    hide RecordsOk, PcOk, Later;
  }

  lemma {:induction false} NoInspectCommit(digest: string -> seq<byte>, s: State, t: nat)
    requires Inv(digest, s) && t < |s.pcs| && s.pcs[t].Commit?
    ensures !s.requests[t].Inspect?
  {
    assert PcOk(digest, s, t, s.requests[t], s.pcs[t]);
  }

  lemma {:induction false} LaterRefl(s: State)
    ensures Later(s, s)
  {
  }

  lemma {:induction false} StepKeepsInv(k: StoreKind, digest: string -> seq<byte>, s: State, c: Choice)
    requires Inv(digest, s)
    ensures Inv(digest, Step(k, digest, s, c)) && Later(s, Step(k, digest, s, c))
  {
    LaterRefl(s);
    hide RecordsOk, PcOk, Later, CommitRequest, BeginRequest, Decide;
    if !c.Act? {
      OutsideStep(k, digest, s, c);
    } else if c.t < |s.pcs| {
      match s.pcs[c.t]
      case Begin => ActBegin(k, digest, s, c.t);
      case Got(_) => ActDecide(k, digest, s, c.t);
      case Commit(_) =>
        if s.requests[c.t].Issue? { CommitIssue(k, digest, s, c.t); }
        else if s.requests[c.t].Consume? { CommitConsume(k, digest, s, c.t); }
        else if s.requests[c.t].Revoke? { CommitRevoke(k, digest, s, c.t); }
        else { NoInspectCommit(digest, s, c.t); }
      case Done(_) =>
    }
  }

  lemma {:induction false} RunKeepsInv(k: StoreKind, digest: string -> seq<byte>, start: int, choices: seq<Choice>)
    ensures Inv(digest, Run(k, digest, start, choices))
  {
    if |choices| > 0 {
      RunKeepsInv(k, digest, start, choices[..|choices| - 1]);
      StepKeepsInv(k, digest, Run(k, digest, start, choices[..|choices| - 1]), choices[|choices| - 1]);
      hide Inv, Step;
    }
  }

  // ----- what every run guarantees, over either store -----

  predicate LinkedAt(s: State, t: nat, id: string) {
    t < |s.pcs| && s.pcs[t].Done? && s.pcs[t].outcome.Linked? && s.pcs[t].outcome.recordId == id
  }

  predicate RevokedAt(s: State, t: nat, id: string) {
    && t < |s.pcs| && s.pcs[t].Done? && s.pcs[t].outcome.Snapshot? && s.pcs[t].outcome.recordId == id
    && s.pcs[t].outcome.status.Revoked?
  }

  /** At most one consume of a record ever succeeds, and never beside a successful revoke. */
  lemma {:induction false} SingleUse(
    k: StoreKind, digest: string -> seq<byte>, start: int, choices: seq<Choice>, id: string, t: nat)
    requires LinkedAt(Run(k, digest, start, choices), t, id)
    ensures forall u: nat :: LinkedAt(Run(k, digest, start, choices), u, id) ==> u == t
    ensures forall u: nat :: !RevokedAt(Run(k, digest, start, choices), u, id)
  {
    RunKeepsInv(k, digest, start, choices);
    var s := Run(k, digest, start, choices);
    LinkedRecord(digest, s, t, id);
    forall u: nat | LinkedAt(s, u, id) ensures u == t { LinkedRecord(digest, s, u, id); }
    forall u: nat ensures !RevokedAt(s, u, id) { RevokedRecord(digest, s, u, id); }
    hide Run, Inv, LinkedAt, RevokedAt;
  }

  lemma {:induction false} LinkedRecord(digest: string -> seq<byte>, s: State, t: nat, id: string)
    requires Inv(digest, s) && LinkedAt(s, t, id)
    ensures id in s.records && s.records[id].status.Consumed? && id in s.winners && s.winners[id] == t
  {
    assert PcOk(digest, s, t, s.requests[t], s.pcs[t]);
  }

  lemma {:induction false} RevokedRecord(digest: string -> seq<byte>, s: State, t: nat, id: string)
    requires Inv(digest, s)
    ensures RevokedAt(s, t, id) ==> id in s.records && s.records[id].status.Revoked?
  {
    if RevokedAt(s, t, id) { assert PcOk(digest, s, t, s.requests[t], s.pcs[t]); }
  }

  /**
   A successful consume carries the right token and binds the subject, organization and device that both it and
   the issuing request named, at a time from issue up to but not including expiry.
   */
  lemma {:induction false} BindingMatchesIssue(
    k: StoreKind, digest: string -> seq<byte>, start: int, choices: seq<Choice>, t: nat)
    requires var s := Run(k, digest, start, choices);
             t < |s.pcs| && s.pcs[t].Done? && s.pcs[t].outcome.Linked?
    ensures var s := Run(k, digest, start, choices);
            var link := s.pcs[t].outcome;
            && |s.pcs| == |s.requests| && link.recordId in s.issuers && s.issuers[link.recordId] < |s.requests|
            && var issue, consume := s.requests[s.issuers[link.recordId]], s.requests[t];
               && issue.Issue? && consume.Consume? && link.recordId == issue.recordId == consume.recordId
               && link.subject == issue.subject == consume.subject
               && link.organization == issue.organization == consume.organization
               && link.device == issue.device == consume.device && digest(consume.token) == digest(issue.token)
               && link.recordId in s.records
               && s.records[link.recordId].issuedAt <= link.at < s.records[link.recordId].expiresAt
               && s.records[link.recordId].expiresAt
                  == s.records[link.recordId].issuedAt + (if issue.ttlMs.Some? then issue.ttlMs.value else 300_000)
  {
    RunKeepsInv(k, digest, start, choices);
    var s := Run(k, digest, start, choices);
    assert PcOk(digest, s, t, s.requests[t], s.pcs[t]);
    var id := s.pcs[t].outcome.recordId;
    assert RecordOk(digest, s, id, s.records[id]);
    hide Run;
  }

  /**
   An offer is made for its own issue's link, which expires the requested time, or five minutes, after it was issued.
   */
  lemma {:induction false} OfferStatesExpiry(
    k: StoreKind, digest: string -> seq<byte>, start: int, choices: seq<Choice>, t: nat, id: string, expiresAt: int)
    requires var s := Run(k, digest, start, choices); t < |s.pcs| && s.pcs[t] == Done(Offered(id, expiresAt))
    ensures var s := Run(k, digest, start, choices);
            && |s.pcs| == |s.requests| && id in s.records
            && var issue, link := s.requests[t], s.records[id];
               && issue.Issue? && issue.recordId == id && link.recordId == id && link.digest == digest(issue.token)
               && link.subject == issue.subject && link.organization == issue.organization
               && link.device == issue.device
               && start <= link.issuedAt <= s.clock && expiresAt == link.expiresAt
               && expiresAt == link.issuedAt + (if issue.ttlMs.Some? then issue.ttlMs.value else 300_000)
  {
    RunKeepsInv(k, digest, start, choices);
    StartedAt(k, digest, start, choices, id);
    var s := Run(k, digest, start, choices);
    assert PcOk(digest, s, t, s.requests[t], s.pcs[t]);
    assert RecordOk(digest, s, id, s.records[id]);
    hide Run;
  }

  /** The answer to a revoke or an inspect states the caller's own link as it is. */
  lemma {:induction false} SnapshotStatesLink(
    k: StoreKind, digest: string -> seq<byte>, start: int, choices: seq<Choice>, t: nat)
    requires var s := Run(k, digest, start, choices);
             t < |s.pcs| && s.pcs[t].Done? && s.pcs[t].outcome.Snapshot?
    ensures var s, o := Run(k, digest, start, choices), Run(k, digest, start, choices).pcs[t].outcome;
            && |s.pcs| == |s.requests| && (s.requests[t].Revoke? || s.requests[t].Inspect?)
            && o.recordId == s.requests[t].recordId && o.recordId in s.records
            && var r, link := s.requests[t], s.records[o.recordId];
               && o.organization == link.organization == r.organization && r.subject == link.subject
               && o.device == link.device && o.expiresAt == link.expiresAt
               && (r.Revoke? ==> o.status.Revoked?)
               && (o.status.Revoked? || o.status.Consumed? ==> link.status == o.status)
               && o.consumedAt == (if o.status.Consumed? then link.consumedAt else None)
               && (o.status.Expired? ==> link.expiresAt <= s.clock)
  {
    RunKeepsInv(k, digest, start, choices);
    var s := Run(k, digest, start, choices);
    assert PcOk(digest, s, t, s.requests[t], s.pcs[t]);
    hide Run;
  }

  /**
   An inspect that has read the caller's link answers with its status, except that an issued link whose expiry the
   clock has reached is answered as expired; of a missing or a foreign link it answers nothing.
   */
  lemma {:induction false} InspectAnswers(k: StoreKind, digest: string -> seq<byte>, s: State, t: nat)
    requires Inv(digest, s) && t < |s.pcs| && s.requests[t].Inspect? && s.pcs[t].Got?
    ensures var r, found := s.requests[t], s.pcs[t].record;
            var answer := Step(k, digest, s, Act(t)).pcs[t];
            if found.Some? && found.value.subject == r.subject && found.value.organization == r.organization then
              && answer.Done? && answer.outcome.Snapshot?
              && (answer.outcome.status.Expired? <==> found.value.status.Issued? && s.clock >= found.value.expiresAt)
              && (!answer.outcome.status.Expired? ==> answer.outcome.status == found.value.status)
              && answer.outcome.recordId == r.recordId && answer.outcome.organization == r.organization
              && answer.outcome.device == found.value.device && answer.outcome.expiresAt == found.value.expiresAt
              && answer.outcome.consumedAt == found.value.consumedAt
            else answer == Done(Denied)
  {
    assert PcOk(digest, s, t, s.requests[t], s.pcs[t]);
    if s.pcs[t].record.Some? { assert RecordOk(digest, s, s.requests[t].recordId, s.records[s.requests[t].recordId]); }
    hide RecordsOk, PcsOk;
  }

  /** No link is issued before the run starts. */
  lemma {:induction false} StartedAt(
    k: StoreKind, digest: string -> seq<byte>, start: int, choices: seq<Choice>, id: string)
    ensures var s := Run(k, digest, start, choices);
            && start <= s.clock && (id in s.records ==> start <= s.records[id].issuedAt)
            && (forall t :: 0 <= t < |s.pcs| && s.pcs[t].Commit? ==> start <= s.pcs[t].now)
  {
    if |choices| > 0 {
      StartedAt(k, digest, start, choices[..|choices| - 1], id);
      var s, c := Run(k, digest, start, choices[..|choices| - 1]), choices[|choices| - 1];
      RunKeepsInv(k, digest, start, choices[..|choices| - 1]);
      StepStartsNoEarlier(k, digest, s, c, start, id);
      hide Inv, Step;
    }
  }

  lemma {:induction false} StepStartsNoEarlier(
    k: StoreKind, digest: string -> seq<byte>, s: State, c: Choice, start: int, id: string)
    requires start <= s.clock && (id in s.records ==> start <= s.records[id].issuedAt)
    requires forall t :: 0 <= t < |s.pcs| && s.pcs[t].Commit? ==> start <= s.pcs[t].now
    ensures var u := Step(k, digest, s, c);
            && start <= u.clock && (id in u.records ==> start <= u.records[id].issuedAt)
            && (forall t :: 0 <= t < |u.pcs| && u.pcs[t].Commit? ==> start <= u.pcs[t].now)
  {
    if c.Act? && c.t < |s.pcs| && c.t < |s.requests| && s.pcs[c.t].Commit? {
      CommitStartsNoEarlier(k, digest, s, c.t, s.pcs[c.t].now, start, id);
    }
    hide NonEmptyArguments, Unqueryable, Get, CommitRequest;
  }

  lemma {:induction false} CommitStartsNoEarlier(
    k: StoreKind, digest: string -> seq<byte>, s: State, t: nat, now: int, start: int, id: string)
    requires t < |s.pcs| && t < |s.requests| && start <= now && (id in s.records ==> start <= s.records[id].issuedAt)
    ensures var u := CommitRequest(k, digest, s, t, now);
            && u.clock == s.clock && (id in u.records ==> start <= u.records[id].issuedAt)
            && |u.pcs| == |s.pcs| && u.pcs == s.pcs[t := u.pcs[t]] && u.pcs[t].Done?
  {
    hide BoundedIdentifier, ReadableRow;
  }

  /** Consumed and revoked are final: nothing in the record changes any more, and links never change at all. */
  lemma {:induction false} FinalStatesAbsorb(
    k: StoreKind, digest: string -> seq<byte>, start: int, choices: seq<Choice>, i: nat, id: string)
    requires i <= |choices| && id in Run(k, digest, start, choices[..i]).records
    ensures id in Run(k, digest, start, choices).records
    ensures var before, now := Run(k, digest, start, choices[..i]).records[id],
            Run(k, digest, start, choices).records[id];
            SameLink(before, now) && (before.status.Consumed? || before.status.Revoked? ==> now == before)
  {
    if i == |choices| {
      assert choices[..i] == choices;
    } else {
      var earlier := choices[..|choices| - 1];
      assert earlier[..i] == choices[..i];
      FinalStatesAbsorb(k, digest, start, earlier, i, id);
      RunKeepsInv(k, digest, start, earlier);
      StepKeepsInv(k, digest, Run(k, digest, start, earlier), choices[|choices| - 1]);
      hide Inv, Step;
    }
  }

  // ----- the two stores -----

  /** All records satisfy the identifier rules of the SQL store. */
  ghost predicate AllStorable(s: State) { forall id :: id in s.records ==> Storable(s.records[id]) }

  /** A request is about to create a record, or look up an id, that makes the SQL store throw and not the other. */
  predicate Diverges(digest: string -> seq<byte>, s: State, c: Choice) {
    c.Act? && c.t < |s.pcs| && c.t < |s.requests| && (CreateDiverges(digest, s, c.t) || ReadDiverges(s, c.t))
  }

  predicate CreateDiverges(digest: string -> seq<byte>, s: State, t: nat)
    requires t < |s.pcs| && t < |s.requests|
  {
    && s.pcs[t].Commit? && s.requests[t].Issue?
    && s.requests[t].recordId !in s.records && !Storable(NewRecord(digest, s.requests[t], s.pcs[t].now))
  }

  predicate ReadDiverges(s: State, t: nat)
    requires t < |s.pcs| && t < |s.requests|
  {
    s.pcs[t].Begin? && !s.requests[t].Issue? && NonEmptyArguments(s.requests[t]) && Unqueryable(s.requests[t].recordId)
  }

  lemma {:induction false} StoresReadAlike(digest: string -> seq<byte>, s: State, id: string)
    requires Inv(digest, s) && AllStorable(s)
    ensures Get(Memory, s.records, id) == Get(Sql, s.records, id)
  {
    if id in s.records { assert RecordOk(digest, s, id, s.records[id]); }
  }

  lemma {:induction false} StoresConsumeAlike(digest: string -> seq<byte>, s: State, id: string, d: seq<byte>, at: int)
    requires Inv(digest, s) && AllStorable(s) && id in s.records
    requires s.records[id].issuedAt <= at < s.records[id].expiresAt
    ensures ConsumeIfIssued(Memory, s.records, id, d, at) == ConsumeIfIssued(Sql, s.records, id, d, at)
    ensures forall other :: other in ConsumeIfIssued(Memory, s.records, id, d, at).0 ==>
              Storable(ConsumeIfIssued(Memory, s.records, id, d, at).0[other])
  {
    assert RecordOk(digest, s, id, s.records[id]);
    hide BoundedIdentifier;
    assert Storable(s.records[id]);
  }

  lemma {:induction false} StoresRevokeAlike(
    digest: string -> seq<byte>, s: State, id: string, subject: string, organization: string, at: int)
    requires Inv(digest, s) && AllStorable(s) && id in s.records
    ensures RevokeIfIssued(Memory, s.records, id, subject, organization, at) ==
            RevokeIfIssued(Sql, s.records, id, subject, organization, at)
    ensures forall other :: other in RevokeIfIssued(Memory, s.records, id, subject, organization, at).0 ==>
              Storable(RevokeIfIssued(Memory, s.records, id, subject, organization, at).0[other])
  {
    assert RecordOk(digest, s, id, s.records[id]);
    hide BoundedIdentifier;
    assert Storable(s.records[id]);
  }

  lemma {:induction false} StoresPutAlike(digest: string -> seq<byte>, s: State, r: Record)
    requires AllStorable(s) && r.status.Issued? && r.issuedAt < r.expiresAt && r.consumedAt.None?
    ensures Put(Memory, s.records, r) == Put(Sql, s.records, r) <==> r.recordId in s.records || Storable(r)
  {
    hide BoundedIdentifier;
  }

  lemma {:induction false} CommitsAgree(digest: string -> seq<byte>, s: State, t: nat, now: int)
    requires Inv(digest, s) && AllStorable(s) && t < |s.pcs| && s.pcs[t] == Commit(now)
    ensures CommitRequest(Memory, digest, s, t, now) == CommitRequest(Sql, digest, s, t, now) <==>
              !Diverges(digest, s, Act(t))
    ensures !Diverges(digest, s, Act(t)) ==> AllStorable(CommitRequest(Memory, digest, s, t, now))
  {
    var r := s.requests[t];
    assert PcOk(digest, s, t, r, s.pcs[t]);
    hide RecordsOk, PcsOk, ConsumeIfIssued, RevokeIfIssued, Storable;
    if r.Consume? {
      StoresConsumeAlike(digest, s, r.recordId, digest(r.token), now);
    } else if r.Revoke? {
      StoresRevokeAlike(digest, s, r.recordId, r.subject, r.organization, now);
    } else {
      StoresPutAlike(digest, s, NewRecord(digest, r, now));
    }
  }

  lemma {:induction false} BeginsAgree(digest: string -> seq<byte>, s: State, t: nat)
    requires Inv(digest, s) && AllStorable(s) && t < |s.pcs| && s.pcs[t].Begin?
    ensures BeginRequest(Memory, s, s.requests[t]) == BeginRequest(Sql, s, s.requests[t]) <==> !ReadDiverges(s, t)
  {
    StoresReadAlike(digest, s, s.requests[t].recordId);
    hide RecordsOk, PcsOk, Get, Storable, NonEmptyArguments, Unqueryable;
  }

  /** From a common state the stores act alike exactly when SQL is not being asked for what it refuses. */
  lemma {:induction false} StepsAgree(digest: string -> seq<byte>, s: State, c: Choice)
    requires Inv(digest, s) && AllStorable(s)
    ensures Step(Memory, digest, s, c) == Step(Sql, digest, s, c) <==> !Diverges(digest, s, c)
    ensures !Diverges(digest, s, c) ==> AllStorable(Step(Memory, digest, s, c))
  {
    if c.Act? && c.t < |s.pcs| {
      if s.pcs[c.t].Begin? {
        BeginsAgree(digest, s, c.t);
        assert forall k :: Step(k, digest, s, c).pcs[c.t] == BeginRequest(k, s, s.requests[c.t]);
      }
      if s.pcs[c.t].Commit? { CommitsAgree(digest, s, c.t, s.pcs[c.t].now); }
    }
    hide RecordsOk, PcsOk, CommitRequest, BeginRequest, Decide, Storable, CreateDiverges, ReadDiverges;
  }

  /** No step of the run over the in-memory store creates or looks up what the SQL store would refuse. */
  predicate NeverDiverges(digest: string -> seq<byte>, start: int, choices: seq<Choice>) {
    |choices| == 0
    || (NeverDiverges(digest, start, choices[..|choices| - 1])
        && !Diverges(digest, Run(Memory, digest, start, choices[..|choices| - 1]), choices[|choices| - 1]))
  }

  lemma {:induction false} NoDivergence(digest: string -> seq<byte>, start: int, choices: seq<Choice>)
    requires NeverDiverges(digest, start, choices)
    ensures Run(Memory, digest, start, choices) == Run(Sql, digest, start, choices)
    ensures AllStorable(Run(Memory, digest, start, choices))
  {
    if |choices| > 0 {
      var earlier := choices[..|choices| - 1];
      NoDivergence(digest, start, earlier);
      RunKeepsInv(Memory, digest, start, earlier);
      StepsAgree(digest, Run(Memory, digest, start, earlier), choices[|choices| - 1]);
      hide Inv, Step, Diverges, AllStorable;
    }
  }

  /** Some request has been answered differently by the two stores, or is about to be. */
  ghost predicate Split(a: State, b: State) { exists t: nat :: SplitAt(a, b, t) }

  predicate SplitAt(a: State, b: State, t: nat) {
    && t < |a.pcs| && t < |b.pcs| && t < |a.requests| && b.pcs[t].Done? && a.pcs[t] != b.pcs[t]
    && (a.pcs[t].Done? || (a.pcs[t] == Got(None) && !a.requests[t].Issue? && b.pcs[t] == Done(StoreFailed)))
  }

  /** An answer once given stays. */
  lemma {:induction false} SplitPersists(digest: string -> seq<byte>, a: State, b: State, c: Choice)
    requires Split(a, b)
    ensures Split(Step(Memory, digest, a, c), Step(Sql, digest, b, c))
  {
    var t: nat :| SplitAt(a, b, t);
    if a.pcs[t].Done? { AnswerStays(Memory, digest, a, c, t); } else { NothingFoundStays(Memory, digest, a, c, t); }
    AnswerStays(Sql, digest, b, c, t);
    StepKeepsRequests(Memory, digest, a, c);
    hide Step;
    assert SplitAt(Step(Memory, digest, a, c), Step(Sql, digest, b, c), t);
  }

  /** A conditional update moves one request and brings none. */
  lemma {:induction false} CommitMovesOne(k: StoreKind, digest: string -> seq<byte>, s: State, t: nat, now: int)
    requires t < |s.pcs| && t < |s.requests|
    ensures var u := CommitRequest(k, digest, s, t, now); |u.pcs| == |s.pcs| && u.pcs == s.pcs[t := u.pcs[t]]
  {
    hide Put, ConsumeIfIssued, RevokeIfIssued, NewRecord;
  }

  lemma {:induction false} AnswerStays(k: StoreKind, digest: string -> seq<byte>, s: State, c: Choice, t: nat)
    requires t < |s.pcs| && s.pcs[t].Done?
    ensures var u := Step(k, digest, s, c);
            t < |u.pcs| && u.pcs[t] == s.pcs[t]
  {
    hide BeginRequest, Decide, CommitRequest;
    if c.Act? && c.t < |s.pcs| && c.t < |s.requests| && s.pcs[c.t].Commit? {
      CommitMovesOne(k, digest, s, c.t, s.pcs[c.t].now);
    }
  }

  /** A request that found nothing will be denied. */
  lemma {:induction false} NothingFoundStays(k: StoreKind, digest: string -> seq<byte>, s: State, c: Choice, t: nat)
    requires t < |s.pcs| && t < |s.requests| && s.pcs[t] == Got(None) && !s.requests[t].Issue?
    ensures var u := Step(k, digest, s, c);
            t < |u.pcs| && (u.pcs[t] == Got(None) || u.pcs[t] == Done(Denied))
  {
    hide BeginRequest, CommitRequest;
    if c.Act? && c.t < |s.pcs| && c.t < |s.requests| && s.pcs[c.t].Commit? {
      CommitMovesOne(k, digest, s, c.t, s.pcs[c.t].now);
    }
  }

  lemma {:induction false} CreationSplits(digest: string -> seq<byte>, s: State, c: Choice)
    requires c.Act? && c.t < |s.pcs| && c.t < |s.requests| && CreateDiverges(digest, s, c.t)
    ensures SplitAt(Step(Memory, digest, s, c), Step(Sql, digest, s, c), c.t)
  {
    hide Storable;
  }

  lemma {:induction false} StoredIdIsText(digest: string -> seq<byte>, s: State, id: string)
    requires Inv(digest, s) && AllStorable(s)
    ensures id in s.records ==> Textual(id)
  {
    if id in s.records { assert RecordOk(digest, s, id, s.records[id]); }
  }

  lemma {:induction false} ReadSplits(digest: string -> seq<byte>, s: State, c: Choice)
    requires c.Act? && c.t < |s.pcs| && c.t < |s.requests| && ReadDiverges(s, c.t) && Inv(digest, s) && AllStorable(s)
    ensures SplitAt(Step(Memory, digest, s, c), Step(Sql, digest, s, c), c.t)
  {
    StoredIdIsText(digest, s, s.requests[c.t].recordId);
    hide RecordsOk, PcsOk, NonEmptyArguments, BoundedIdentifier;
  }

  lemma {:induction false} DivergenceSplits(digest: string -> seq<byte>, s: State, c: Choice)
    requires Inv(digest, s) && AllStorable(s) && Diverges(digest, s, c)
    ensures Split(Step(Memory, digest, s, c), Step(Sql, digest, s, c))
  {
    if CreateDiverges(digest, s, c.t) { CreationSplits(digest, s, c); } else { ReadSplits(digest, s, c); }
    hide RecordsOk, PcOk, Step, CreateDiverges, ReadDiverges;
    assert SplitAt(Step(Memory, digest, s, c), Step(Sql, digest, s, c), c.t);
  }

  lemma {:induction false} DivergenceShows(digest: string -> seq<byte>, start: int, choices: seq<Choice>)
    requires !NeverDiverges(digest, start, choices)
    ensures Split(Run(Memory, digest, start, choices), Run(Sql, digest, start, choices))
  {
    var earlier, last := choices[..|choices| - 1], choices[|choices| - 1];
    hide Inv, Step, Diverges, Split;
    if NeverDiverges(digest, start, earlier) {
      NoDivergence(digest, start, earlier);
      RunKeepsInv(Memory, digest, start, earlier);
      DivergenceSplits(digest, Run(Memory, digest, start, earlier), last);
    } else {
      DivergenceShows(digest, start, earlier);
      SplitPersists(digest, Run(Memory, digest, start, earlier), Run(Sql, digest, start, earlier), last);
    }
  }

  /** Over whole runs the two stores answer every request alike exactly when SQL is never asked for what it refuses. */
  lemma {:induction false} StoresAgree(digest: string -> seq<byte>, start: int, choices: seq<Choice>)
    ensures Run(Memory, digest, start, choices) == Run(Sql, digest, start, choices) <==>
              NeverDiverges(digest, start, choices)
    ensures Run(Memory, digest, start, choices).pcs == Run(Sql, digest, start, choices).pcs <==>
              NeverDiverges(digest, start, choices)
  {
    if NeverDiverges(digest, start, choices) {
      NoDivergence(digest, start, choices);
    } else {
      DivergenceShows(digest, start, choices);
    }
    hide NeverDiverges, Run;
  }

  /** A request the service takes to the store although SQL can neither store its record nor query its id. */
  predicate Refusable(r: Request) {
    if r.Issue? then Issuable(r) && !StorableParts(r.recordId, r.subject, r.organization, r.device)
    else NonEmptyArguments(r) && Unqueryable(r.recordId)
  }

  /** The arriving requests are all of the given kind. */
  ghost predicate ArrivalsIn(choices: seq<Choice>, allowed: set<Request>) {
    forall i :: 0 <= i < |choices| && choices[i].Arrive? ==> choices[i].request in allowed
  }

  lemma {:induction false} RequestsAreArrivals(
    k: StoreKind, digest: string -> seq<byte>, start: int, choices: seq<Choice>, allowed: set<Request>)
    requires ArrivalsIn(choices, allowed)
    ensures forall t :: 0 <= t < |Run(k, digest, start, choices).requests| ==>
              Run(k, digest, start, choices).requests[t] in allowed
  {
    if |choices| > 0 {
      RequestsAreArrivals(k, digest, start, choices[..|choices| - 1], allowed);
      StepKeepsRequests(k, digest, Run(k, digest, start, choices[..|choices| - 1]), choices[|choices| - 1]);
      hide Step;
    }
  }

  lemma {:induction false} StepKeepsRequests(k: StoreKind, digest: string -> seq<byte>, s: State, c: Choice)
    ensures Step(k, digest, s, c).requests == s.requests + if c.Arrive? then [c.request] else []
  {
    hide BeginRequest, Decide, Put, ConsumeIfIssued, RevokeIfIssued, NewRecord;
    assert s.requests + [] == s.requests;
  }

  lemma {:induction false} StorableRequestsNeverDiverge(
    digest: string -> seq<byte>, start: int, choices: seq<Choice>, allowed: set<Request>)
    requires ArrivalsIn(choices, allowed) && forall r :: r in allowed ==> !Refusable(r)
    ensures NeverDiverges(digest, start, choices)
  {
    if |choices| > 0 {
      var earlier, last := choices[..|choices| - 1], choices[|choices| - 1];
      StorableRequestsNeverDiverge(digest, start, earlier, allowed);
      RequestsAreArrivals(Memory, digest, start, earlier, allowed);
      RunKeepsInv(Memory, digest, start, earlier);
      var s := Run(Memory, digest, start, earlier);
      if last.Act? && last.t < |s.pcs| { assert PcOk(digest, s, last.t, s.requests[last.t], s.pcs[last.t]); }
      hide RecordsOk, Run, BoundedIdentifier, Issuable;
    }
  }

  /** A single refusable request, served alone, is already answered differently. */
  lemma {:induction false} RefusableRequestDiverges(digest: string -> seq<byte>, start: int, r: Request)
    requires Refusable(r)
    ensures !NeverDiverges(digest, start, [Arrive(r), Act(0), Act(0)])
  {
    var choices := [Arrive(r), Act(0), Act(0)];
    var s0, s1 := Run(Memory, digest, start, []), Run(Memory, digest, start, choices[..1]);
    assert choices[..1][..0] == [] && choices[..2][..1] == choices[..1];
    assert s1 == Step(Memory, digest, s0, Arrive(r));
    assert s1 == State(map[], start, [r], [Begin], map[], map[]);
    if r.Issue? {
      assert Run(Memory, digest, start, choices[..2]) == Step(Memory, digest, s1, Act(0));
      hide BoundedIdentifier, Blank;
      assert Run(Memory, digest, start, choices[..2]) == State(map[], start, [r], [Commit(start)], map[], map[]);
    } else {
      assert Diverges(digest, s1, Act(0));
      assert !NeverDiverges(digest, start, choices[..2]);
    }
  }

  ghost predicate AnsweredAlike(digest: string -> seq<byte>, start: int, choices: seq<Choice>) {
    Run(Memory, digest, start, choices).pcs == Run(Sql, digest, start, choices).pcs
  }

  /**
   Whatever the interleaving, the two stores answer all requests of a given kind alike exactly when no request of
   that kind is one the service accepts with an identifier the SQL store or its table refuses.
   */
  lemma {:induction false} StoresAgreeOnRequests(digest: string -> seq<byte>, start: int, allowed: set<Request>)
    ensures (forall choices :: ArrivalsIn(choices, allowed) ==> AnsweredAlike(digest, start, choices))
       <==> (forall r :: r in allowed ==> !Refusable(r))
  {
    if forall r :: r in allowed ==> !Refusable(r) {
      forall choices | ArrivalsIn(choices, allowed) ensures AnsweredAlike(digest, start, choices) {
        StorableRequestsNeverDiverge(digest, start, choices, allowed);
        StoresAgree(digest, start, choices);
      }
    } else {
      var r :| r in allowed && Refusable(r);
      var choices := [Arrive(r), Act(0), Act(0)];
      RefusableRequestDiverges(digest, start, r);
      StoresAgree(digest, start, choices);
      assert ArrivalsIn(choices, allowed) && !AnsweredAlike(digest, start, choices);
    }
    hide Run, NeverDiverges, Refusable;
  }

  /**
   A request as the controller builds it, from an authenticated principal, a bounded membership and a random record
   id, is refusable only for a device id with a U+0000 in it, which the controller lets through.
   */
  lemma {:induction false} ControllerRequestsAgree(r: Request, rawDevice: string)
    requires BoundedIdentifier(r.subject, 128) && BoundedIdentifier(r.organization, 128)
    requires BoundedIdentifier(r.recordId, 128)
    requires Textual(r.subject) && Textual(r.organization) && Textual(r.recordId)
    requires r.Issue? ==> RequireIdentifier(rawDevice) == Some(r.device)
    ensures Refusable(r) <==> r.Issue? && Issuable(r) && !Textual(r.device)
  {
    RequiredIdentifierIsBounded(rawDevice);
  }

  /** Such a device id: the controller passes it on, the in-memory store offers the exchange, the SQL store throws. */
  lemma {:induction false} NulDeviceDiverges(digest: string -> seq<byte>)
    ensures var r := Issue("user", "org", true, "lap\0top", None, "r1", "token");
            && RequireIdentifier("lap\0top") == Some(r.device) && Refusable(r)
            && !AnsweredAlike(digest, 0, [Arrive(r), Act(0), Act(0)])
  {
    var r := Issue("user", "org", true, "lap\0top", None, "r1", "token");
    assert r.device[3] == '\0' && !IsSpace(r.device[0]) && !Blank(r.device);
    ShortText("lap\0top");
    RefusableRequestDiverges(digest, 0, r);
    StoresAgree(digest, 0, [Arrive(r), Act(0), Act(0)]);
    hide Run, NeverDiverges;
  }

  lemma {:induction false} ShortText(s: string)
    ensures Utf16Length(s) <= 2 * |s|
    ensures s != [] ==> Utf16Length(s) > 0
  {
    if s != [] { ShortText(s[..|s| - 1]); }
  }

  /**
   A device id with a leading space: the in-memory store offers the exchange, the SQL store throws. Such an id
   reaches the service only from a caller that does not go through the controller, which trims it.
   */
  lemma {:induction false} UntrimmedDeviceDiverges(digest: string -> seq<byte>, k: StoreKind)
    ensures var choices := [Arrive(Issue("user", "org", true, " laptop", None, "r1", "token")), Act(0), Act(0)];
            Run(k, digest, 0, choices).pcs == [Done(if k.Memory? then Offered("r1", DEFAULT_TTL_MS) else StoreFailed)]
  {
    var request := Issue("user", "org", true, " laptop", None, "r1", "token");
    var choices := [Arrive(request), Act(0), Act(0)];
    var s0, s1 := Run(k, digest, 0, []), Run(k, digest, 0, choices[..1]);
    var s2 := Run(k, digest, 0, choices[..2]);
    assert choices[..1][..0] == [] && choices[..2][..1] == choices[..1];
    assert s1 == State(map[], 0, [request], [Begin], map[], map[]);
    assert !IsSpace(request.device[1]) && !Blank(request.device);
    assert s2 == Step(k, digest, s1, Act(0));
    assert s2.pcs == [Commit(0)];
  }
}
