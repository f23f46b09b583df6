/** The in-memory record store and the service's requests as they run against it, with other requests in between. */
module DesktopLinkService {
  import opened Words
  import opened Wrappers
  import opened DesktopLink

  class InMemoryDesktopLinkRecordStore {
    var records: Records

    constructor ()
      ensures records == map[]
    {
      records := map[];
    }

    method PutRecord(r: Record) returns (stored: bool)
      modifies this
      ensures stored <==> Put(Memory, old(records), r).Some?
      ensures records == if stored then Put(Memory, old(records), r).value else old(records)
    {
      if r.recordId in records { return false; }
      records := records[r.recordId := r];
      stored := true;
    }

    method GetRecord(id: string) returns (r: Option<Record>)
      ensures r == Get(Memory, records, id)
    {
      if id in records { return Some(records[id]); }
      r := None;
    }

    method ConsumeRecordIfIssued(id: string, digest: seq<byte>, at: int) returns (r: Option<Record>)
      modifies this
      ensures (records, r) == ConsumeIfIssued(Memory, old(records), id, digest, at)
    {
      if id !in records || !records[id].status.Issued? || records[id].digest != digest { return None; }
      var consumed := records[id].(status := Consumed, consumedAt := Some(at));
      records := records[id := consumed];
      r := Some(consumed);
    }

    method RevokeRecordIfIssued(id: string, subject: string, organization: string, at: int) returns (r: Option<Record>)
      modifies this
      ensures (records, r) == RevokeIfIssued(Memory, old(records), id, subject, organization, at)
    {
      if id !in records { return None; }
      var current := records[id];
      if !current.status.Issued? || current.subject != subject || current.organization != organization { return None; }
      if at < current.issuedAt || at >= current.expiresAt { return None; }
      var revoked := current.(status := Revoked);
      records := records[id := revoked];
      r := Some(revoked);
    }
  }

  /** Records only ever gain links, and a link only ever goes from issued to a final state. */
  ghost predicate Evolved(before: Records, after: Records) {
    forall id :: id in before ==>
             id in after && SameLink(before[id], after[id]) && (!before[id].status.Issued? ==> after[id] == before[id])
  }

  /** The schedule goes on without request t. */
  ghost predicate OthersOnly(before: seq<Choice>, after: seq<Choice>, t: nat) {
    before <= after && forall i :: |before| <= i < |after| ==> after[i] != Act(t)
  }

  /** Steps of others leave request t where it is, and records evolve. */
  lemma {:induction false} OthersFrame(
    digest: string -> seq<byte>, start: int, before: seq<Choice>, after: seq<Choice>, t: nat)
    requires OthersOnly(before, after, t) && t < |Run(Memory, digest, start, before).pcs|
    ensures var s, u := Run(Memory, digest, start, before), Run(Memory, digest, start, after);
            && |s.pcs| == |s.requests| && |u.pcs| == |u.requests| && t < |u.pcs| && u.pcs[t] == s.pcs[t]
            && u.requests[t] == s.requests[t]
            && Evolved(s.records, u.records) && s.clock <= u.clock
    decreases |after|
  {
    RunKeepsInv(Memory, digest, start, after);
    if |before| == |after| {
      assert before == after;
    } else {
      var prefix, last := after[..|after| - 1], after[|after| - 1];
      OthersFrame(digest, start, before, prefix, t);
      RunKeepsInv(Memory, digest, start, prefix);
      var s, u := Run(Memory, digest, start, before), Run(Memory, digest, start, prefix);
      StepKeepsInv(Memory, digest, u, last);
      StepOfOther(digest, u, last, t);
      EvolvedFurther(s.records, u, Step(Memory, digest, u, last));
    }
    hide RecordsOk, PcOk, Step, Evolved, Later;
  }

  lemma {:induction false} StepOfOther(digest: string -> seq<byte>, s: State, c: Choice, t: nat)
    requires c != Act(t) && t < |s.pcs| == |s.requests|
    ensures var u := Step(Memory, digest, s, c);
            t < |u.pcs| && t < |u.requests| && u.pcs[t] == s.pcs[t] && u.requests[t] == s.requests[t]
  {
    hide BeginRequest, Decide, Put, ConsumeIfIssued, RevokeIfIssued, NewRecord;
  }

  lemma {:induction false} EvolvedFurther(before: Records, s: State, u: State)
    requires Evolved(before, s.records) && Later(s, u)
    ensures Evolved(before, u.records) && s.clock <= u.clock
  {
  }

  /**
   The service beside any number of other requests. The machine of module DesktopLink runs along: `schedule` is the
   interleaving so far, and store and clock are always what that run makes them.
   */
  class Service {
    const store: InMemoryDesktopLinkRecordStore
    const digest: string -> seq<byte>
    const start: int
    var clock: int
    ghost var m: State
    ghost var schedule: seq<Choice>

    constructor (s: InMemoryDesktopLinkRecordStore, d: string -> seq<byte>, now: int)
      requires s.records == map[]
      ensures store == s && digest == d && clock == start == now && schedule == [] && Valid()
    {
      store := s;
      digest := d;
      start := now;
      clock := now;
      m := Run(Memory, d, now, []);
      schedule := [];
    }

    ghost predicate Valid()
      reads this, store
    {
      && m == Run(Memory, digest, start, schedule) && store.records == m.records && clock == m.clock
      && |m.pcs| == |m.requests|
    }

    /** Request t has been answered with o. */
    ghost predicate Answered(t: nat, r: Request, o: Outcome)
      reads this
    {
      t < |m.pcs| == |m.requests| && m.requests[t] == r && m.pcs[t] == Done(o)
    }

    /** One step of the machine; the caller performs it on the store. */
    ghost method Advance(c: Choice)
      requires m == Run(Memory, digest, start, schedule) && |m.pcs| == |m.requests|
      modifies `m, `schedule
      ensures m == Run(Memory, digest, start, schedule) && m == Step(Memory, digest, old(m), c)
      ensures schedule == old(schedule) + [c]
      ensures |m.pcs| == |m.requests|
    {
      m := Step(Memory, digest, m, c);
      schedule := schedule + [c];
      assert schedule[..|schedule| - 1] == old(schedule);
      RunKeepsInv(Memory, digest, start, schedule);
      hide RecordsOk, PcOk, Step;
    }

    ghost method Arrival(r: Request) returns (t: nat)
      requires Valid()
      modifies `m, `schedule
      ensures Valid() && t < |m.pcs| && m.requests[t] == r && m.pcs[t] == Begin
      ensures schedule == old(schedule) + [Arrive(r)] && m.records == old(m.records) && m.clock == old(m.clock)
    {
      t := |m.pcs|;
      Advance(Arrive(r));
    }

    /**
     Other requests and the clock take any number of steps while request t awaits. Callers rely on the contract
     alone; the body is the shortest such schedule.
     */
    method OtherRequests(ghost t: nat)
      requires Valid() && t < |m.pcs|
      modifies this`clock, this`m, this`schedule, store
      ensures Valid() && OthersOnly(old(schedule), schedule, t)
    {
    }

    /** The same, with what it means for request t. */
    method Await(ghost t: nat)
      requires Valid() && t < |m.pcs|
      modifies this`clock, this`m, this`schedule, store
      ensures Valid() && OthersOnly(old(schedule), schedule, t)
      ensures t < |m.pcs| && m.pcs[t] == old(m.pcs[t]) && m.requests[t] == old(m.requests[t])
      ensures Evolved(old(store.records), store.records) && old(clock) <= clock
    {
      OtherRequests(t);
      OthersFrame(digest, start, old(schedule), schedule, t);
    }

    method IssueLink(r: Request) returns (o: Outcome, ghost t: nat)
      requires Valid() && r.Issue?
      modifies this`clock, this`m, this`schedule, store
      ensures Valid() && old(schedule) <= schedule && Answered(t, r, o)
      ensures old(clock) <= clock && Evolved(old(store.records), store.records)
      ensures o.Offered? || o.Denied? || o.StoreFailed?
      ensures o.Denied? <==> Blank(r.device) || !r.permitted || (r.ttlMs.Some? && !(30_000 <= r.ttlMs.value <= 600_000))
      ensures o.Offered? ==>
                && o.recordId == r.recordId && o.recordId !in old(store.records) && o.recordId in store.records
                && var link := store.records[o.recordId];
                && link == Record(r.recordId, digest(r.token), r.subject, r.organization, r.device, link.issuedAt,
                                  o.expiresAt, Issued, None)
                && old(clock) <= link.issuedAt <= clock
                && o.expiresAt == link.issuedAt + (if r.ttlMs.Some? then r.ttlMs.value else 300_000)
      ensures o.StoreFailed? ==> r.recordId in store.records
    {
      hide Run, Blank;
      t := Arrival(r);
      Advance(Act(t));
      if Blank(r.device) || !r.permitted { return Denied, t; }
      if Ttl(r) < MIN_TTL_MS || Ttl(r) > MAX_TTL_MS { return Denied, t; }
      var now := clock;
      Await(t);
      var stored := store.PutRecord(NewRecord(digest, r, now));
      Advance(Act(t));
      o := if stored then Offered(r.recordId, now + Ttl(r)) else StoreFailed;
    }

    /** Request t takes the step that ends with its program counter at `next` and touches nothing else. */
    ghost method Move(t: nat, next: Pc)
      requires Valid() && t < |m.pcs| && Step(Memory, digest, m, Act(t)) == m.(pcs := m.pcs[t := next])
      modifies `m, `schedule
      ensures Valid() && old(schedule) <= schedule && m == old(m).(pcs := old(m.pcs)[t := next])
    {
      Advance(Act(t));
      hide Step, Run;
    }

    /** How consume and revoke begin: check the arguments, read the record, wait for the reply. */
    method ReadRecord(r: Request) returns (refused: bool, record: Option<Record>, ghost t: nat)
      requires Valid() && (r.Consume? || r.Revoke?)
      modifies this`clock, this`m, this`schedule, store
      ensures Valid() && old(schedule) <= schedule && t < |m.pcs| && m.requests[t] == r
      ensures old(clock) <= clock && Evolved(old(store.records), store.records)
      ensures refused <==> !NonEmptyArguments(r)
      ensures refused ==> m.pcs[t] == Done(Denied)
      ensures !refused ==> m.pcs[t] == Got(record) && record == Get(Memory, old(store.records), r.recordId)
    {
      hide Run, NonEmptyArguments;
      t := Arrival(r);
      record := None;
      refused := !NonEmptyArguments(r);
      if refused {
        Move(t, Done(Denied));
      } else {
        record := store.GetRecord(r.recordId);
        Move(t, Got(record));
        hide Step;
        Await(t);
      }
    }

    /**
     A consume succeeds only on a link that was issued and unexpired and matches every argument, and it leaves that
     link consumed. It is denied only for a reason: a missing, finished, foreign or expired link, or a lost race.
     */
    method ConsumeLink(r: Request) returns (o: Outcome, ghost t: nat)
      requires Valid() && r.Consume?
      modifies this`clock, this`m, this`schedule, store
      ensures Valid() && old(schedule) <= schedule && Answered(t, r, o)
      ensures old(clock) <= clock && Evolved(old(store.records), store.records)
      ensures o.Linked? || o.Denied?
      ensures o.Linked? ==>
                && NonEmptyArguments(r) && r.recordId in old(store.records)
                && var link := old(store.records)[r.recordId];
                   && link.status.Issued? && link.digest == digest(r.token) && old(clock) <= o.at < link.expiresAt
                   && o.at <= clock
                   && link.subject == r.subject && link.organization == r.organization && link.device == r.device
                   && o == Linked(link.recordId, r.subject, r.organization, r.device, o.at)
                   && store.records[r.recordId] == link.(status := Consumed, consumedAt := Some(o.at))
      ensures o.Denied? ==>
                || !NonEmptyArguments(r) || r.recordId !in old(store.records)
                || var link := old(store.records)[r.recordId];
                   || !link.status.Issued? || link.digest != digest(r.token) || link.expiresAt <= clock
                   || link.subject != r.subject || link.organization != r.organization || link.device != r.device
                   || !store.records[r.recordId].status.Issued?
    {
      hide Run, NonEmptyArguments;
      RecordNamed(r.recordId);
      var refused, record;
      refused, record, t := ReadRecord(r);
      if refused { return Denied, t; }
      var now := clock;
      var supplied := digest(r.token);
      Move(t, Decide(digest, r, record, now));
      hide Step;
      if record.None? || !record.value.status.Issued? || record.value.digest != supplied { return Denied, t; }
      if now >= record.value.expiresAt { return Denied, t; }
      if record.value.subject != r.subject || record.value.organization != r.organization ||
        record.value.device != r.device {
        return Denied, t;
      }
      o := CommitConsumption(r, now, t);
    }

    /** The conditional update that ends a consume. */
    method CommitConsumption(r: Request, now: int, ghost t: nat) returns (o: Outcome)
      requires Valid() && r.Consume? && t < |m.pcs| && m.requests[t] == r && m.pcs[t] == Commit(now)
      modifies this`clock, this`m, this`schedule, store
      ensures Valid() && old(schedule) <= schedule && Answered(t, r, o)
      ensures old(clock) <= clock && Evolved(old(store.records), store.records) && r.recordId in old(store.records)
      ensures var link := old(store.records)[r.recordId];
              if o.Linked? then
                && link.status.Issued? && o == Linked(r.recordId, link.subject, link.organization, link.device, now)
                && store.records[r.recordId] == link.(status := Consumed, consumedAt := Some(now))
              else o.Denied? && !store.records[r.recordId].status.Issued?
    {
      hide Run;
      ConsumerKnowsLink(t);
      ghost var before := store.records;
      Await(t);
      ConsumerKnowsLink(t);
      ghost var middle := store.records;
      var consumed := store.ConsumeRecordIfIssued(r.recordId, digest(r.token), now);
      Advance(Act(t));
      EvolvedByOne(before, middle, r.recordId, middle[r.recordId].(status := Consumed, consumedAt := Some(now)),
        store.records);
      if consumed.None? { return Denied; }
      o := Linked(consumed.value.recordId, consumed.value.subject, consumed.value.organization, consumed.value.device,
        now);
    }

    lemma {:induction false} RecordNamed(id: string)
      requires Valid()
      ensures id in store.records ==> store.records[id].recordId == id
    {
      RunKeepsInv(Memory, digest, start, schedule);
      hide Run;
      if id in store.records { assert RecordOk(digest, m, id, m.records[id]); }
    }

    /** A consume about to commit has matched its link. */
    lemma {:induction false} ConsumerKnowsLink(t: nat)
      requires Valid() && t < |m.pcs| && m.requests[t].Consume? && m.pcs[t].Commit?
      ensures var r := m.requests[t];
              && r.recordId in m.records && m.records[r.recordId].digest == digest(r.token)
              && m.records[r.recordId].recordId == r.recordId
    {
      RunKeepsInv(Memory, digest, start, schedule);
      hide Run;
      assert PcOk(digest, m, t, m.requests[t], m.pcs[t]);
      assert RecordOk(digest, m, m.requests[t].recordId, m.records[m.requests[t].recordId]);
    }

    /** A revoke succeeds on an issued, unexpired link of the caller, or reports one already revoked. */
    method RevokeLink(r: Request) returns (o: Outcome, ghost t: nat)
      requires Valid() && r.Revoke?
      modifies this`clock, this`m, this`schedule, store
      ensures Valid() && old(schedule) <= schedule && Answered(t, r, o)
      ensures old(clock) <= clock && Evolved(old(store.records), store.records)
      ensures o.Snapshot? || o.Denied?
      ensures o.Snapshot? ==>
                && NonEmptyArguments(r) && r.recordId in old(store.records)
                && var link := old(store.records)[r.recordId];
                   && link.subject == r.subject && link.organization == r.organization
                   && (link.status.Revoked? || (link.status.Issued? && old(clock) < link.expiresAt))
                   && o == RevokedSnapshot(link) && store.records[r.recordId].status.Revoked?
      ensures o.Denied? ==>
                || !NonEmptyArguments(r) || r.recordId !in old(store.records)
                || var link := old(store.records)[r.recordId];
                   || link.subject != r.subject || link.organization != r.organization
                   || link.status.Consumed? || link.status.Expired? || link.expiresAt <= clock
                   || !store.records[r.recordId].status.Issued?
    {
      hide Run, NonEmptyArguments;
      var refused, record;
      refused, record, t := ReadRecord(r);
      if refused { return Denied, t; }
      var now := clock;
      Move(t, Decide(digest, r, record, now));
      hide Step;
      if record.None? || record.value.subject != r.subject || record.value.organization != r.organization {
        return Denied, t;
      }
      if record.value.status.Revoked? { return RevokedSnapshot(record.value), t; }
      if !record.value.status.Issued? || now >= record.value.expiresAt { return Denied, t; }
      o := CommitRevocation(r, now, t);
    }

    /** The conditional update that ends a revoke. */
    method CommitRevocation(r: Request, now: int, ghost t: nat) returns (o: Outcome)
      requires Valid() && r.Revoke? && t < |m.pcs| && m.requests[t] == r && m.pcs[t] == Commit(now)
      modifies this`clock, this`m, this`schedule, store
      ensures Valid() && old(schedule) <= schedule && Answered(t, r, o)
      ensures old(clock) <= clock && Evolved(old(store.records), store.records) && r.recordId in old(store.records)
      ensures var link := old(store.records)[r.recordId];
              if o.Snapshot?
                then link.status.Issued? && o == RevokedSnapshot(link) && store.records[r.recordId].status.Revoked?
              else o.Denied? && !store.records[r.recordId].status.Issued?
    {
      hide Run;
      RevokerKnowsLink(t);
      ghost var before := store.records;
      Await(t);
      RevokerKnowsLink(t);
      ghost var middle := store.records;
      var revoked := store.RevokeRecordIfIssued(r.recordId, r.subject, r.organization, now);
      Advance(Act(t));
      EvolvedByOne(before, middle, r.recordId, middle[r.recordId].(status := Revoked), store.records);
      if revoked.None? { return Denied; }
      o := RevokedSnapshot(revoked.value);
    }

    /** A revoke about to commit has matched its link. */
    lemma {:induction false} RevokerKnowsLink(t: nat)
      requires Valid() && t < |m.pcs| && m.requests[t].Revoke? && m.pcs[t].Commit?
      ensures var r := m.requests[t];
              && r.recordId in m.records && m.records[r.recordId].recordId == r.recordId
              && m.records[r.recordId].subject == r.subject && m.records[r.recordId].organization == r.organization
              && m.records[r.recordId].issuedAt <= m.pcs[t].now < m.records[r.recordId].expiresAt
    {
      RunKeepsInv(Memory, digest, start, schedule);
      hide Run;
      assert PcOk(digest, m, t, m.requests[t], m.pcs[t]);
      assert RecordOk(digest, m, m.requests[t].recordId, m.records[m.requests[t].recordId]);
    }
  }

  /** The service's answers are the machine's: a link is handed out once, and never beside a revocation. */
  lemma {:induction false} ServiceSingleUse(s: Service, t: nat, r: Request, o: Outcome, u: nat, q: Request, p: Outcome)
    requires s.Valid() && s.Answered(t, r, o) && s.Answered(u, q, p) && o.Linked?
    ensures p.Linked? && p.recordId == o.recordId ==> u == t
    ensures p.Snapshot? && p.recordId == o.recordId ==> !p.status.Revoked?
  {
    SingleUse(Memory, s.digest, s.start, s.schedule, o.recordId, t);
    hide Run;
    assert p.Linked? && p.recordId == o.recordId ==> LinkedAt(s.m, u, o.recordId);
    assert !RevokedAt(s.m, u, o.recordId);
  }

  /** A link the service hands out names the identities of an issue it has served. */
  lemma {:induction false} ServiceBinding(s: Service, t: nat, r: Request, o: Outcome)
    requires s.Valid() && s.Answered(t, r, o) && o.Linked?
    ensures r.Consume? && o.recordId == r.recordId && o.subject == r.subject && o.organization == r.organization
    ensures o.device == r.device
    ensures o.recordId in s.m.issuers && s.m.issuers[o.recordId] < |s.m.requests|
    ensures var issue := s.m.requests[s.m.issuers[o.recordId]];
            && issue.Issue? && issue.recordId == o.recordId
            && issue.subject == o.subject && issue.organization == o.organization && issue.device == o.device
  {
    BindingMatchesIssue(Memory, s.digest, s.start, s.schedule, t);
    hide Run;
  }

  /** Finishing one issued link, or nothing, continues the evolution. */
  lemma {:induction false} EvolvedByOne(before: Records, middle: Records, id: string, r: Record, after: Records)
    requires Evolved(before, middle) && id in middle && SameLink(middle[id], r)
    requires after == middle || (middle[id].status.Issued? && after == middle[id := r])
    ensures Evolved(before, after)
  {
  }
}
