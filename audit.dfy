/**
 * The audit log of `src/audit/audit.service.ts`: an append-only table of
 * entries, a write that never lets a failure escape, and the per-user query
 * that returns the newest entries first, truncated to a limit.
 */
module Audit {
  import opened Wrappers

  type UserId = nat
  type Time = int

  /** The `AuditAction` enum. */
  datatype AuditAction = Signup | Login | Logout | Invite | JoinTeam | LeaveTeam | UpdateProfile

  /** A JSON value, the `payload` a caller passes to `log`. */
  datatype Json = JNull | JBool(b: bool) | JNum(n: int) | JStr(s: string) | JArray(items: seq<Json>) | JObject(fields: seq<(string, Json)>)

  /** JavaScript truthiness of a JSON value: `null`, `false`, `0` and `""` are falsy. */
  predicate Truthy(j: Json) {
    match j
    case JNull => false
    case JBool(b) => b
    case JNum(n) => n != 0
    case JStr(s) => s != ""
    case _ => true
  }

  /** A row of the `AuditLog` table; `id` is its primary key, `timestamp` the time of the write. */
  datatype AuditEntry = AuditEntry(id: nat, userId: UserId, action: AuditAction, payload: Option<string>, timestamp: Time)

  /** The stored `payload` column: the serialisation of a truthy payload, null otherwise. */
  function StoredPayload(payload: Option<Json>, stringify: Json -> string): (stored: Option<string>)
    ensures stored.Some? <==> payload.Some? && Truthy(payload.value)
    ensures stored.Some? ==> stored.value == stringify(payload.value)
  {
    if payload.Some? && Truthy(payload.value) then Some(stringify(payload.value)) else None
  }

  /** The limit `getAuditLogs` applies when the caller gives none. */
  const DefaultLimit: nat := 50

  /** The entries of `entries` whose user is `userId`, in order. */
  function Filtered(entries: seq<AuditEntry>, userId: UserId): (r: seq<AuditEntry>)
    ensures |r| <= |entries|
    ensures forall e :: e in r <==> e in entries && e.userId == userId
    ensures forall e :: multiset(r)[e] == if e.userId == userId then multiset(entries)[e] else 0
  {
    if entries == [] then []
    else
      assert entries == [entries[0]] + entries[1..];
      var rest := Filtered(entries[1..], userId);
      if entries[0].userId == userId then [entries[0]] + rest else rest
  }

  ghost predicate NewestFirst(s: seq<AuditEntry>) {
    forall i, j :: 0 <= i < j < |s| ==> s[i].timestamp >= s[j].timestamp
  }

  /** Insert `e` into `s`, sorted newest first, before the first entry older than it. */
  function Insert(e: AuditEntry, s: seq<AuditEntry>): (r: seq<AuditEntry>)
    requires NewestFirst(s)
    ensures NewestFirst(r)
    ensures multiset(r) == multiset(s) + multiset{e}
  {
    if s == [] || s[0].timestamp <= e.timestamp then [e] + s
    else
      var rest := Insert(e, s[1..]);
      assert multiset(s) == multiset{s[0]} + multiset(s[1..]) by { assert s == [s[0]] + s[1..]; }
      BoundedByHead(s, e, rest);
      [s[0]] + rest
  }

  /** Every entry of `rest`, a rearrangement of the tail of `s` and one entry not
      newer than its head, is not newer than the head, so the head can go first. */
  lemma BoundedByHead(s: seq<AuditEntry>, e: AuditEntry, rest: seq<AuditEntry>)
    requires NewestFirst(s) && s != [] && e.timestamp < s[0].timestamp
    requires NewestFirst(rest) && multiset(rest) == multiset(s[1..]) + multiset{e}
    ensures NewestFirst([s[0]] + rest)
  {
    forall x | x in rest ensures x.timestamp <= s[0].timestamp {
      assert x in multiset(rest);
    }
  }

  /** The entries sorted by timestamp, newest first (`orderBy: { timestamp: 'desc' }`). */
  function SortNewestFirst(s: seq<AuditEntry>): (r: seq<AuditEntry>)
    ensures NewestFirst(r)
    ensures multiset(r) == multiset(s)
  {
    if s == [] then []
    else
      assert s == [s[0]] + s[1..];
      Insert(s[0], SortNewestFirst(s[1..]))
  }

  /** `getAuditLogs(userId, limit)`: the user's entries, newest first, at most `limit` of them. */
  function GetAuditLogs(entries: seq<AuditEntry>, userId: UserId, limit: nat := DefaultLimit): (r: seq<AuditEntry>)
    ensures |r| == if limit < |Filtered(entries, userId)| then limit else |Filtered(entries, userId)|
    ensures forall e :: e in r ==> e in entries && e.userId == userId
    ensures NewestFirst(r)
    ensures multiset(r) <= multiset(Filtered(entries, userId))
    ensures limit >= |Filtered(entries, userId)| ==> multiset(r) == multiset(Filtered(entries, userId))
  {
    var filtered := Filtered(entries, userId);
    var sorted := SortNewestFirst(filtered);
    assert |sorted| == |multiset(sorted)| == |multiset(filtered)| == |filtered|;
    var n := if limit < |sorted| then limit else |sorted|;
    NewestPrefix(sorted, n);
    var r := sorted[..n];
    forall e | e in r ensures e in entries && e.userId == userId {
      assert e in multiset(filtered);
    }
    r
  }

  /** A prefix of a newest-first list is newest first and holds each entry at most as often. */
  lemma NewestPrefix(sorted: seq<AuditEntry>, n: nat)
    requires NewestFirst(sorted) && n <= |sorted|
    ensures NewestFirst(sorted[..n])
    ensures multiset(sorted[..n]) <= multiset(sorted)
    ensures n == |sorted| ==> sorted[..n] == sorted
  {
    assert sorted == sorted[..n] + sorted[n..];
  }

  /** The entries of the user that `getAuditLogs` leaves out are no newer than any it returns. */
  lemma {:induction false} OmittedAreOlder(entries: seq<AuditEntry>, userId: UserId, limit: nat, e: AuditEntry, k: nat)
    requires e in multiset(Filtered(entries, userId)) - multiset(GetAuditLogs(entries, userId, limit))
    requires k < |GetAuditLogs(entries, userId, limit)|
    ensures e.timestamp <= GetAuditLogs(entries, userId, limit)[k].timestamp
  {
    var sorted := SortNewestFirst(Filtered(entries, userId));
    var r := GetAuditLogs(entries, userId, limit);
    assert |sorted| == |multiset(sorted)|;
    assert r == sorted[..|r|];
    PrefixDominates(sorted, |r|, e, k);
  }

  /** In a newest-first list, an entry beyond the first `n` is no newer than any of them. */
  lemma PrefixDominates(sorted: seq<AuditEntry>, n: nat, e: AuditEntry, k: nat)
    requires NewestFirst(sorted) && k < n <= |sorted|
    requires e in multiset(sorted) - multiset(sorted[..n])
    ensures e.timestamp <= sorted[k].timestamp
  {
    assert sorted == sorted[..n] + sorted[n..];
    assert multiset(sorted) == multiset(sorted[..n]) + multiset(sorted[n..]);
    assert e in sorted[n..];
    var j :| n <= j < |sorted| && sorted[j] == e;
  }

  /** The `AuditLog` table, appended to by `log`. */
  class AuditService {
    var entries: seq<AuditEntry>
    var nextId: nat
    const stringify: Json -> string

    ghost predicate Valid()
      reads this
    {
      forall i :: 0 <= i < |entries| ==> entries[i].id < nextId
    }

    constructor (stringify: Json -> string)
      ensures Valid() && entries == [] && this.stringify == stringify
    {
      entries := [];
      nextId := 0;
      this.stringify := stringify;
    }

    /** `log`: append one entry; when the write fails (`writeFails`) the failure is
        swallowed, the table is left as it was and the call still returns normally. */
    method Log(userId: UserId, action: AuditAction, payload: Option<Json>, now: Time, writeFails: bool)
      requires Valid()
      modifies this
      ensures Valid()
      ensures writeFails ==> entries == old(entries)
      ensures !writeFails ==> entries == old(entries) + [AuditEntry(old(nextId), userId, action, StoredPayload(payload, stringify), now)]
    {
      if !writeFails {
        entries := entries + [AuditEntry(nextId, userId, action, StoredPayload(payload, stringify), now)];
        nextId := nextId + 1;
      }
    }
  }
}
