/**
 The audit outbox table: its rows, the CHECK constraints that guard them, and
 the SQL statements that create, lease and settle rows. Text columns are
 sequences of octets.
 */
module AuditOutbox {
  import opened Wrappers
  import opened Sequences

  const MAX_CLAIM_LIMIT := 100
  const MAX_SUBJECT_KIND := 64
  const MAX_SUBJECT_ID := 512
  const MAX_ACTION := 128
  const MAX_DETAIL := 8192
  const MAX_PROOF := 6144
  const MAX_ERROR_CODE := 96

  // gen_random_uuid() is a supply that never repeats a value.
  type Uuid = nat

  datatype JsonKind = NullText | ObjectText | OtherText

  datatype Json = Json(text: string, kind: JsonKind)

  /** What json.Marshal made of Entry.Details. */
  datatype Details = Absent | Unserializable | Encoded(json: Json)

  datatype Entry = Entry(subjectKind: string, subjectId: string, action: string, details: Details)

  datatype Row = Row(
    eventId: Uuid,
    occurredAt: int,
    subjectKind: string,
    subjectId: string,
    action: string,
    details: Option<Json>,
    proof: Option<seq<bv8>>,
    attempts: int,
    availableAt: int,
    leaseToken: Option<Uuid>,
    leaseExpires: Option<int>,
    deliveredAt: Option<int>,
    quarantinedAt: Option<int>,
    lastError: Option<string>)

  datatype Table = Table(rows: map<nat, Row>, nextId: nat, supply: Uuid)

  /** The columns a claim returns. */
  datatype Delivery = Delivery(
    id: nat,
    eventId: Uuid,
    occurredAt: int,
    subjectKind: string,
    subjectId: string,
    action: string,
    details: Option<Json>,
    proof: Option<seq<bv8>>,
    attempts: int,
    token: Uuid)

  predicate Terminal(r: Row) {
    r.deliveredAt.Some? || r.quarantinedAt.Some?
  }

  /** The CHECK constraints EnsureTable installs, one conjunct a constraint. */
  predicate Checks(r: Row) {
    && (r.proof.Some? ==> 1 <= |r.proof.value| <= MAX_PROOF)
    && (r.proof.Some? || Terminal(r))
    && (Terminal(r) || (
          && 1 <= |r.subjectKind| <= MAX_SUBJECT_KIND
          && 1 <= |r.subjectId| <= MAX_SUBJECT_ID
          && 1 <= |r.action| <= MAX_ACTION
          && (r.details.Some? ==> r.details.value.kind == ObjectText)
          && r.attempts >= 0
          && (r.lastError.Some? ==> |r.lastError.value| <= MAX_ERROR_CODE)))
    && (r.leaseToken.Some? <==> r.leaseExpires.Some?)
    && !(r.deliveredAt.Some? && r.quarantinedAt.Some?)
    && (Terminal(r) ==> r.leaseToken.None? && r.leaseExpires.None?)
  }

  /** Columns no statement writes once the row exists. */
  predicate SameEvidence(r: Row, s: Row) {
    && r.eventId == s.eventId && r.occurredAt == s.occurredAt
    && r.subjectKind == s.subjectKind && r.subjectId == s.subjectId && r.action == s.action
    && r.details == s.details && r.proof == s.proof
  }

  /** A delivery holds what its row recorded. */
  predicate Carries(d: Delivery, r: Row) {
    && d.eventId == r.eventId && d.occurredAt == r.occurredAt
    && d.subjectKind == r.subjectKind && d.subjectId == r.subjectId && d.action == r.action
    && d.details == r.details && d.proof == r.proof
  }

  // ---------------------------------------------------------------- text

  /** The UTF-8 octets of one Unicode white space character. */
  predicate IsSpace(w: string) {
    || (|w| == 1 && (w[0] == ' ' || '\t' <= w[0] <= '\r'))
    || (|w| == 2 && w[0] == '\U{00C2}' && (w[1] == '\U{0085}' || w[1] == '\U{00A0}'))
    || (|w| == 3 && w[0] == '\U{00E1}' && w[1] == '\U{009A}' && w[2] == '\U{0080}')
    || (|w| == 3 && w[0] == '\U{00E2}' && w[1] == '\U{0080}'
        && ('\U{0080}' <= w[2] <= '\U{008A}' || w[2] == '\U{00A8}' || w[2] == '\U{00A9}' || w[2] == '\U{00AF}'))
    || (|w| == 3 && w[0] == '\U{00E2}' && w[1] == '\U{0081}' && w[2] == '\U{009F}')
    || (|w| == 3 && w[0] == '\U{00E3}' && w[1] == '\U{0080}' && w[2] == '\U{0080}')
  }

  /** How many octets of white space the first character of a text is. */
  function SpaceAhead(s: string): (n: nat)
    ensures n <= 3 && n <= |s| && (n > 0 ==> IsSpace(s[..n]))
    ensures n == 0 ==> forall w :: IsSpace(w) ==> !(w <= s)
  {
    if |s| >= 1 && IsSpace(s[..1]) then 1
    else if |s| >= 2 && IsSpace(s[..2]) then 2
    else if |s| >= 3 && IsSpace(s[..3]) then 3
    else
      NoSpaceAhead(s);
      0
  }

  lemma {:induction false} NoSpaceAhead(s: string)
    requires |s| >= 1 ==> !IsSpace(s[..1])
    requires |s| >= 2 ==> !IsSpace(s[..2])
    requires |s| >= 3 ==> !IsSpace(s[..3])
    ensures forall w :: IsSpace(w) ==> !(w <= s)
  {
    forall w | w <= s
      ensures !IsSpace(w)
    {
      assert w == s[..|w|];
    }
  }

  /** How many octets of white space the last character of a text is. */
  function SpaceBehind(s: string): (n: nat)
    ensures n <= 3 && n <= |s| && (n > 0 ==> IsSpace(s[|s| - n..]))
  {
    if |s| >= 1 && IsSpace(s[|s| - 1..]) then 1
    else if |s| >= 2 && IsSpace(s[|s| - 2..]) then 2
    else if |s| >= 3 && IsSpace(s[|s| - 3..]) then 3
    else 0
  }

  function TrimLeft(s: string): (t: string) {
    if SpaceAhead(s) > 0 then TrimLeft(s[SpaceAhead(s)..]) else s
  }

  function TrimRight(s: string): (t: string) {
    if SpaceBehind(s) > 0 then TrimRight(s[..|s| - SpaceBehind(s)]) else s
  }

  /** strings.TrimSpace */
  function TrimSpace(s: string): string {
    TrimRight(TrimLeft(s))
  }

  function Concat(ws: seq<string>): string {
    if ws == [] then "" else ws[0] + Concat(ws[1..])
  }

  predicate AllSpaces(ws: seq<string>) {
    forall i :: 0 <= i < |ws| ==> IsSpace(ws[i])
  }

  lemma {:induction false} ConcatAppends(ws: seq<string>, w: string)
    ensures Concat(ws + [w]) == Concat(ws) + w
  {
    if ws == [] {
      assert [w][1..] == [] && [] + [w] == [w];
    } else {
      assert (ws + [w])[1..] == ws[1..] + [w];
      ConcatAppends(ws[1..], w);
      Regroup(ws[0], Concat(ws[1..]), w);
    }
  }

  lemma {:induction false} TrimLeftCuts(s: string) returns (spaces: seq<string>)
    ensures s == Concat(spaces) + TrimLeft(s) && AllSpaces(spaces)
    ensures SpaceAhead(TrimLeft(s)) == 0
  {
    var n := SpaceAhead(s);
    if n > 0 {
      var more := TrimLeftCuts(s[n..]);
      spaces := [s[..n]] + more;
      assert spaces[1..] == more && s == s[..n] + s[n..];
      Regroup(s[..n], Concat(more), TrimLeft(s));
    } else {
      spaces := [];
    }
  }

  lemma {:induction false} SpacesAppend(ws: seq<string>, w: string)
    requires AllSpaces(ws) && IsSpace(w)
    ensures AllSpaces(ws + [w]) && Concat(ws + [w]) == Concat(ws) + w
  {
    ConcatAppends(ws, w);
  }

  lemma {:induction false} TrimRightCuts(s: string) returns (spaces: seq<string>)
    ensures s == TrimRight(s) + Concat(spaces) && AllSpaces(spaces)
    ensures SpaceBehind(TrimRight(s)) == 0
    decreases |s|, 1
  {
    var n := SpaceBehind(s);
    if n > 0 {
      assert s == s[..|s| - n] + s[|s| - n..];
      spaces := LastSpaceCut(s, s[..|s| - n], s[|s| - n..]);
    } else {
      spaces := [];
    }
  }

  lemma {:induction false} LastSpaceCut(s: string, front: string, last: string) returns (spaces: seq<string>)
    requires s == front + last && |front| < |s| && IsSpace(last) && TrimRight(s) == TrimRight(front)
    ensures s == TrimRight(s) + Concat(spaces) && AllSpaces(spaces)
    ensures SpaceBehind(TrimRight(s)) == 0
    decreases |s|, 0
  {
    var more := TrimRightCuts(front);
    spaces := more + [last];
    SpacesAppend(more, last);
    Regroup(TrimRight(front), Concat(more), last);
  }

  lemma {:induction false} PrefixAhead(t: string, s: string)
    requires t <= s && SpaceAhead(s) == 0
    ensures SpaceAhead(t) == 0
  {
    var w := t[..SpaceAhead(t)];
    assert w <= s;
  }

  /** Trimming takes off exactly the white space characters around a text. */
  lemma {:induction false} TrimSpaceCuts(s: string) returns (left: seq<string>, right: seq<string>)
    ensures s == Concat(left) + TrimSpace(s) + Concat(right) && AllSpaces(left) && AllSpaces(right)
    ensures SpaceAhead(TrimSpace(s)) == 0 && SpaceBehind(TrimSpace(s)) == 0
  {
    left := TrimLeftCuts(s);
    right := TrimRightCuts(TrimLeft(s));
    Regroup(Concat(left), TrimSpace(s), Concat(right));
    PrefixAhead(TrimSpace(s), TrimLeft(s));
  }

  function BoundedErrorCode(code: string): (r: string)
    ensures 1 <= |r| <= MAX_ERROR_CODE
    ensures TrimSpace(code) == "" ==> r == "delivery_failed"
    ensures TrimSpace(code) != "" ==> r <= TrimSpace(code) && (r == TrimSpace(code) || |r| == MAX_ERROR_CODE)
  {
    var t := TrimSpace(code);
    if t == "" then "delivery_failed" else if |t| > MAX_ERROR_CODE then t[..MAX_ERROR_CODE] else t
  }

  // ---------------------------------------------------------------- Record

  datatype RecordError = InvalidEntry | BadDetails | ProvenanceUnavailable

  /** Each of the three names fits its column once trimmed. */
  predicate NamesFit(entry: Entry) {
    && 1 <= |TrimSpace(entry.subjectKind)| <= MAX_SUBJECT_KIND
    && 1 <= |TrimSpace(entry.subjectId)| <= MAX_SUBJECT_ID
    && 1 <= |TrimSpace(entry.action)| <= MAX_ACTION
  }

  /** Details are left out, or an object that is not too large; a JSON null is left out too. */
  predicate DetailsFit(d: Details) {
    d.Absent? || (d.Encoded? && |d.json.text| <= MAX_DETAIL && d.json.kind != OtherText)
  }

  /** The row Record inserts; proofParses is what invocationwire.Parse said of the proof. */
  function NewRow(entry: Entry, proof: seq<bv8>, proofParses: bool, eventId: Uuid, now: int): (r: Result<Row, RecordError>)
    requires proofParses ==> |proof| <= MAX_PROOF
    ensures r == Err(InvalidEntry) <==> !NamesFit(entry)
    ensures r == Err(BadDetails) <==> NamesFit(entry) && !DetailsFit(entry.details)
    ensures r.Ok? <==> NamesFit(entry) && DetailsFit(entry.details) && proof != [] && proofParses
    ensures r.Ok? ==> Checks(r.value) && !Terminal(r.value) && r.value.leaseToken.None?
    ensures r.Ok? ==> r.value.attempts == 0 && r.value.proof == Some(proof) && r.value.eventId == eventId
    ensures r.Ok? ==> r.value.availableAt == now && r.value.occurredAt == now && r.value.lastError.None?
    ensures r.Ok? ==> r.value.subjectKind == TrimSpace(entry.subjectKind) && r.value.subjectId == TrimSpace(entry.subjectId)
                      && r.value.action == TrimSpace(entry.action)
    ensures r.Ok? ==> match r.value.details
                      case None => entry.details.Absent? || entry.details.json.kind == NullText
                      case Some(json) => entry.details == Encoded(json)
  {
    var kind, id, action := TrimSpace(entry.subjectKind), TrimSpace(entry.subjectId), TrimSpace(entry.action);
    if kind == "" || id == "" || action == "" ||
       |kind| > MAX_SUBJECT_KIND || |id| > MAX_SUBJECT_ID || |action| > MAX_ACTION then Err(InvalidEntry)
    else
      var details :- RecordDetails(entry.details);
      if proof == [] || !proofParses then Err(ProvenanceUnavailable)
      else Ok(Row(eventId, now, kind, id, action, details, Some(proof), 0, now, None, None, None, None, None))
  }

  function RecordDetails(d: Details): Result<Option<Json>, RecordError> {
    match d
    case Absent => Ok(None)
    case Unserializable => Err(BadDetails)
    case Encoded(json) =>
      if |json.text| > MAX_DETAIL then Err(BadDetails)
      else match json.kind
        case NullText => Ok(None)
        case ObjectText => Ok(Some(json))
        case OtherText => Err(BadDetails)
  }

  function Insert(t: Table, r: Row): Table {
    Table(t.rows[t.nextId := r.(eventId := t.supply)], t.nextId + 1, t.supply + 1)
  }

  // ---------------------------------------------------------------- EnsureTable

  /** A row of a table whose SDK could enqueue but not forward: later columns carry their defaults. */
  predicate Legacy(r: Row) {
    && r.proof.None? && r.attempts == 0 && r.leaseToken.None? && r.leaseExpires.None?
    && r.quarantinedAt.None? && r.lastError.None?
  }

  function Upgrade(r: Row, now: int): Row {
    if r.deliveredAt.None? && r.proof.None? then
      r.(quarantinedAt := if r.quarantinedAt.Some? then r.quarantinedAt else Some(now),
         lastError := if r.lastError.Some? then r.lastError else Some("missing_invocation_proof"),
         leaseToken := None, leaseExpires := None)
    else r
  }

  function UpgradeAll(t: Table, now: int): Table {
    t.(rows := map id | id in t.rows :: Upgrade(t.rows[id], now))
  }

  /** Whatever an enqueue-only SDK wrote, and whatever else is undelivered without a proof, becomes a row the new constraints accept. */
  lemma {:induction false} UpgradeMeetsChecks(r: Row, now: int)
    requires Legacy(r) || (r.deliveredAt.None? && r.proof.None?)
    ensures RowOk(Upgrade(r, now))
    ensures SameEvidence(r, Upgrade(r, now)) && Upgrade(r, now).deliveredAt == r.deliveredAt
    ensures r.deliveredAt.None? && r.proof.None? && r.quarantinedAt.None? ==> Upgrade(r, now).quarantinedAt == Some(now)
  {
  }

  /** What every row of a provisioned table meets: the CHECKs, and quarantine for a missing proof. */
  predicate RowOk(r: Row) {
    && Checks(r)
    && (r.deliveredAt.None? && r.proof.None? ==> r.quarantinedAt.Some? && r.lastError.Some?)
  }

  ghost predicate TableOk(t: Table) {
    && (forall id :: id in t.rows ==>
          id < t.nextId && RowOk(t.rows[id]) && t.rows[id].eventId < t.supply
          && (t.rows[id].leaseToken.Some? ==> t.rows[id].leaseToken.value < t.supply))
    && (forall i, j :: i in t.rows && j in t.rows && i != j ==> t.rows[i].eventId != t.rows[j].eventId)
    && (forall i, j :: i in t.rows && j in t.rows && i != j && t.rows[i].leaseToken.Some? ==>
          t.rows[i].leaseToken != t.rows[j].leaseToken)
  }

  /** Provisioning again never changes a provisioned table. */
  lemma {:induction false} UpgradeIsIdempotent(t: Table, now: int)
    requires TableOk(t)
    ensures UpgradeAll(t, now) == t
  {
    assert UpgradeAll(t, now).rows == t.rows;
  }

  // ---------------------------------------------------------------- Claim

  /** The candidates CTE's WHERE clause. */
  predicate Claimable(r: Row, now: int) {
    && r.deliveredAt.None? && r.quarantinedAt.None?
    && r.availableAt <= now
    && (r.leaseExpires.None? || r.leaseExpires.value < now)
  }

  function Lease(t: Table, id: nat, until: int): (u: Table)
    requires id in t.rows
  {
    var r := t.rows[id];
    t.(rows := t.rows[id := r.(attempts := r.attempts + 1, leaseToken := Some(t.supply), leaseExpires := Some(until))],
       supply := t.supply + 1)
  }

  function DeliveryOf(t: Table, id: nat): (d: Delivery)
    requires id in t.rows && t.rows[id].leaseToken.Some?
    ensures d.id == id && Carries(d, t.rows[id]) && d.attempts == t.rows[id].attempts && Some(d.token) == t.rows[id].leaseToken
  {
    var r := t.rows[id];
    Delivery(id, r.eventId, r.occurredAt, r.subjectKind, r.subjectId, r.action, r.details, r.proof, r.attempts, r.leaseToken.value)
  }

  function LeaseAll(t: Table, ids: seq<nat>, until: int): (u: Table)
    requires forall i :: 0 <= i < |ids| ==> ids[i] in t.rows
    ensures u.rows.Keys == t.rows.Keys
    decreases |ids|
  {
    if ids == [] then t
    else Lease(LeaseAll(t, ids[..|ids| - 1], until), ids[|ids| - 1], until)
  }

  /** ORDER BY available_at, id */
  predicate Before(t: Table, i: nat, j: nat)
    requires i in t.rows && j in t.rows
  {
    t.rows[i].availableAt < t.rows[j].availableAt
    || (t.rows[i].availableAt == t.rows[j].availableAt && i < j)
  }

  // ---------------------------------------------------------------- fenced updates

  datatype Final = Acknowledge | Retry(code: string, availableAt: int) | Quarantine(code: string)
  datatype FencedError = LeaseLost

  /** The WHERE clause shared by the three updates. */
  predicate Holds(t: Table, id: nat, token: Uuid) {
    id in t.rows && !Terminal(t.rows[id]) && t.rows[id].leaseToken == Some(token)
  }

  function Settle(r: Row, f: Final, now: int): Row {
    var free := r.(leaseToken := None, leaseExpires := None);
    match f
    case Acknowledge => free.(deliveredAt := Some(now), lastError := None)
    case Retry(code, at) => free.(availableAt := at, lastError := Some(BoundedErrorCode(code)))
    case Quarantine(code) => free.(quarantinedAt := Some(now), lastError := Some(BoundedErrorCode(code)))
  }

  function Finalize(t: Table, id: nat, token: Uuid, f: Final, now: int): (Table, Result<(), FencedError>) {
    if Holds(t, id, token) then (t.(rows := t.rows[id := Settle(t.rows[id], f, now)]), Ok(()))
    else (t, Err(LeaseLost))
  }

  /** A row given back for retry is claimable from the chosen time on and not before, whoever asks. */
  lemma {:induction false} RetryWaits(t: Table, id: nat, token: Uuid, code: string, at: int, now: int, later: int)
    requires Finalize(t, id, token, Retry(code, at), now).1.Ok?
    ensures var r := Finalize(t, id, token, Retry(code, at), now).0.rows[id];
            && (Claimable(r, later) <==> at <= later)
            && r.lastError.Some? && (TrimSpace(code) != "" ==> r.lastError.value <= TrimSpace(code))
            && r.attempts == t.rows[id].attempts
  {
  }

  /** An acknowledged row carries its delivery time and no error, a quarantined one its time and code; neither is ever claimable. */
  lemma {:induction false} TerminalIsNeverClaimable(t: Table, id: nat, token: Uuid, f: Final, now: int, later: int)
    requires !f.Retry? && Finalize(t, id, token, f, now).1.Ok?
    ensures var r := Finalize(t, id, token, f, now).0.rows[id];
            && !Claimable(r, later)
            && (f.Acknowledge? ==> r.deliveredAt == Some(now) && r.quarantinedAt.None? && r.lastError.None?)
            && (f.Quarantine? ==> r.quarantinedAt == Some(now) && r.deliveredAt.None? && r.lastError.Some?)
  {
  }

  // ---------------------------------------------------------------- constraints survive

  lemma {:induction false} ReplaceKeepsTable(t: Table, id: nat, r: Row, supply: Uuid)
    requires TableOk(t) && id in t.rows && RowOk(r) && r.eventId == t.rows[id].eventId
    requires r.leaseToken == None || (r.leaseToken == Some(t.supply) && t.supply < supply)
    requires t.supply <= supply
    ensures TableOk(t.(rows := t.rows[id := r], supply := supply))
  {
    var u := t.(rows := t.rows[id := r], supply := supply);
    forall i | i in u.rows
      ensures i < u.nextId && RowOk(u.rows[i]) && u.rows[i].eventId < u.supply
              && (u.rows[i].leaseToken.Some? ==> u.rows[i].leaseToken.value < u.supply)
    {
      assert i in t.rows;
    }
    forall i, j | i in u.rows && j in u.rows && i != j
      ensures u.rows[i].eventId != u.rows[j].eventId
      ensures u.rows[i].leaseToken.Some? ==> u.rows[i].leaseToken != u.rows[j].leaseToken
    {
      assert i in t.rows && j in t.rows;
    }
  }

  lemma {:induction false} LeaseKeepsTable(t: Table, id: nat, until: int, now: int)
    requires TableOk(t) && id in t.rows && Claimable(t.rows[id], now)
    ensures TableOk(Lease(t, id, until))
  {
    ReplaceKeepsTable(t, id, Lease(t, id, until).rows[id], t.supply + 1);
  }

  lemma {:induction false} FinalizeKeepsTable(t: Table, id: nat, token: Uuid, f: Final, now: int)
    requires TableOk(t)
    ensures TableOk(Finalize(t, id, token, f, now).0)
  {
    if Holds(t, id, token) {
      ReplaceKeepsTable(t, id, Settle(t.rows[id], f, now), t.supply);
    }
  }

  lemma {:induction false} InsertKeepsTable(t: Table, r: Row)
    requires TableOk(t) && RowOk(r) && r.leaseToken.None?
    ensures TableOk(Insert(t, r))
  {
    var u := Insert(t, r);
    forall i | i in u.rows
      ensures i < u.nextId && RowOk(u.rows[i]) && u.rows[i].eventId < u.supply
              && (u.rows[i].leaseToken.Some? ==> u.rows[i].leaseToken.value < u.supply)
    {
      assert i == t.nextId || i in t.rows;
    }
    forall i, j | i in u.rows && j in u.rows && i != j
      ensures u.rows[i].eventId != u.rows[j].eventId
      ensures u.rows[i].leaseToken.Some? ==> u.rows[i].leaseToken != u.rows[j].leaseToken
    {
      assert i == t.nextId || i in t.rows;
      assert j == t.nextId || j in t.rows;
    }
  }
}
