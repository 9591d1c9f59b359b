/**
  The job store: one file per job, and a read token that every write replaces.
  Passing back the token of an earlier read proves that nothing was written to
  the job in between.
  */
module JobStore {
  import opened Prelude

  const STATUS_ACTIVE := "active"
  const STATUS_PAUSED := "paused"
  const STATUS_COMPLETED := "completed"

  /** The fields of a job that the store and the scheduler only carry along. */
  datatype Details = Details(name: string, prompt: string, model: string, channelId: string, createdAt: int)

  datatype Job = Job(
    id: string, schedule: string, oneShot: bool, status: string,
    lastRun: Option<int>, nextRun: Option<int>, runCount: int,
    readToken: string, details: Details)

  datatype StoreError = InvalidId | InvalidReadId | NotFound | Modified

  /** Job files by the id in their name. */
  type Files = map<string, Job>

  /** The store writes a job under its own id. */
  predicate WellNamed(files: Files) {
    forall id | id in files :: files[id].id == id && ValidId(id)
  }

  /** Equal but for the read token. */
  predicate SameJob(a: Job, b: Job) {
    a.(readToken := b.readToken) == b
  }

  function Stamp(job: Job, token: string): (stamped: Job)
    ensures stamped.readToken == token && SameJob(stamped, job)
  {
    job.(readToken := token)
  }

  // ----- Ids and read ids -----

  predicate IdChar(c: char) {
    'a' <= c <= 'z' || 'A' <= c <= 'Z' || '0' <= c <= '9' || c == '_' || c == '-'
  }

  /** By their ASCII codes: so an id holds no separator of paths or read ids, and no dot. */
  lemma IdCharsAre(c: char)
    ensures IdChar(c) <==>
              var n := c as int; n == 45 || 48 <= n <= 57 || 65 <= n <= 90 || n == 95 || 97 <= n <= 122
    ensures IdChar(c) ==> c !in "/\\.: "
  {
  }

  predicate ValidId(id: string) {
    id != "" && forall i | 0 <= i < |id| :: IdChar(id[i])
  }

  function ReadId(job: Job): string {
    job.id + ":" + job.readToken
  }

  /** The position of the first ':', or the length when there is none. */
  function Colon(s: string): (n: nat)
    ensures n <= |s| && (n < |s| ==> s[n] == ':')
    ensures forall i | 0 <= i < n :: s[i] != ':'
  {
    if s == "" || s[0] == ':' then 0 else 1 + Colon(s[1..])
  }

  function ParseReadId(readId: string): Result<(string, string), StoreError> {
    var n := Colon(readId);
    if n == |readId| || n == 0 || n + 1 == |readId| then Err(InvalidReadId)
    else if !ValidId(readId[..n]) then Err(InvalidId)
    else Ok((readId[..n], readId[n + 1..]))
  }

  /** A printed read id parses back to its id and token exactly when the id is valid and the token not empty. */
  lemma ReadIdRoundTrip(job: Job)
    ensures ParseReadId(ReadId(job)) == Ok((job.id, job.readToken)) <==> ValidId(job.id) && job.readToken != ""
  {
    var s := ReadId(job);
    assert s[|job.id|] == ':';
    if ValidId(job.id) && job.readToken != "" {
      assert forall i | 0 <= i < |job.id| :: s[i] != ':' by {
        assert forall i | 0 <= i < |job.id| :: s[i] == job.id[i];
      }
      assert Colon(s) == |job.id|;
      assert s[..|job.id|] == job.id && s[|job.id| + 1..] == job.readToken;
    }
  }

  /** Nothing else parses: a read id that is accepted is the print of what it parses to. */
  lemma ParsedReadIdIsThePrint(readId: string)
    ensures match ParseReadId(readId)
            case Ok((id, token)) => readId == id + ":" + token && ValidId(id) && token != ""
            case Err(_) => !exists job :: readId == ReadId(job) && ValidId(job.id) && job.readToken != ""
  {
    var n := Colon(readId);
    match ParseReadId(readId)
    case Ok(_) => assert readId == readId[..n] + ":" + readId[n + 1..];
    case Err(_) =>
      forall job | readId == ReadId(job) ensures !(ValidId(job.id) && job.readToken != "") {
        ReadIdRoundTrip(job);
      }
  }

  // ----- What each call returns and leaves -----

  function ReadResult(files: Files, id: string, expected: string): Result<Job, StoreError> {
    if !ValidId(id) then Err(InvalidId)
    else if id !in files then Err(NotFound)
    else if expected != "" && files[id].readToken != expected then Err(Modified)
    else Ok(files[id])
  }

  /** An empty expected token skips the check, and then a missing file is not an error. */
  function DeleteError(files: Files, id: string, expected: string): Option<StoreError> {
    if !ValidId(id) then Some(InvalidId)
    else if expected == "" then None
    else match ReadResult(files, id, expected)
      case Ok(_) => None
      case Err(e) => Some(e)
  }

  /** A change to the store: a job written with a fresh token (Create, Update, Get, one job of List), or a Delete. */
  datatype Op =
    | Put(job: Job, uuid: string)
    | Refresh(id: string, uuid: string)
    | Remove(id: string, expected: string)

  function Apply(files: Files, op: Op): Files {
    match op
    case Put(job, uuid) => if ValidId(job.id) then files[job.id := Stamp(job, uuid)] else files
    case Refresh(id, uuid) =>
      if ReadResult(files, id, "").Ok? then files[id := Stamp(files[id], uuid)] else files
    case Remove(id, expected) => if DeleteError(files, id, expected).None? then files - {id} else files
  }

  // ----- Writing a listed file at a time -----

  /** The table after the values at the first `n` keys were replaced. */
  ghost function Overwritten<K, V>(before: map<K, V>, updated: map<K, V>, keys: seq<K>, n: nat): (after: map<K, V>)
    requires n <= |keys| && before.Keys == updated.Keys && forall i | 0 <= i < |keys| :: keys[i] in updated
    ensures after.Keys == before.Keys
  {
    if n == 0 then before else Overwritten(before, updated, keys, n - 1)[keys[n - 1] := updated[keys[n - 1]]]
  }

  lemma {:induction false} OverwrittenAt<K, V>(before: map<K, V>, updated: map<K, V>, keys: seq<K>, n: nat, k: K)
    requires n <= |keys| && before.Keys == updated.Keys && forall i | 0 <= i < |keys| :: keys[i] in updated
    requires k in before
    ensures Overwritten(before, updated, keys, n)[k] == if k in keys[..n] then updated[k] else before[k]
  {
    if n > 0 {
      OverwrittenAt(before, updated, keys, n - 1, k);
      assert keys[..n] == keys[..n - 1] + [keys[n - 1]];
    }
  }

  lemma OverwrittenAll<K, V>(before: map<K, V>, updated: map<K, V>, keys: seq<K>)
    requires before.Keys == updated.Keys && forall i | 0 <= i < |keys| :: keys[i] in updated
    requires forall k | k in updated :: k in keys
    ensures Overwritten(before, updated, keys, |keys|) == updated
  {
    assert keys[..|keys|] == keys;
    forall k | k in updated ensures Overwritten(before, updated, keys, |keys|)[k] == updated[k] {
      OverwrittenAt(before, updated, keys, |keys|, k);
    }
  }

  /** Every job but the skipped ones with its fresh token. */
  ghost function Restamped(files: Files, uuid: map<string, string>, skipped: iset<string>): (after: Files)
    requires WellNamed(files) && files.Keys <= uuid.Keys
    ensures WellNamed(after) && after.Keys == files.Keys
  {
    map id | id in files :: if id in skipped then files[id] else Stamp(files[id], uuid[id])
  }

  /** The jobs at the keys that are not skipped, in that order. */
  ghost function Listed(after: Files, ids: seq<string>, skipped: iset<string>): seq<Job>
    requires forall i | 0 <= i < |ids| :: ids[i] in after
  {
    if ids == [] then []
    else
      var last := ids[|ids| - 1];
      Listed(after, ids[..|ids| - 1], skipped) + (if last in skipped then [] else [after[last]])
  }

  /** The first i ids are dealt with: the files written back so far, and the jobs to return. */
  ghost predicate ListedUpTo(before: Files, after: Files, ids: seq<string>, skipped: iset<string>, i: nat, files: Files, jobs: seq<Job>)
    requires i <= |ids| && before.Keys == after.Keys && forall k | 0 <= k < |ids| :: ids[k] in after
  {
    files == Overwritten(before, after, ids, i) && jobs == Listed(after, ids[..i], skipped)
  }

  lemma ListStep(before: Files, uuid: map<string, string>, skipped: iset<string>, ids: seq<string>, i: nat, files: Files, jobs: seq<Job>)
    requires WellNamed(before) && before.Keys <= uuid.Keys && i < |ids| && forall k | 0 <= k < |ids| :: ids[k] in before
    requires ListedUpTo(before, Restamped(before, uuid, skipped), ids, skipped, i, files, jobs)
    ensures ids[i] in files
    ensures var after, job := Restamped(before, uuid, skipped), Stamp(files[ids[i]], uuid[ids[i]]);
            if ids[i] in skipped then ListedUpTo(before, after, ids, skipped, i + 1, files, jobs)
            else job.id == ids[i] && ListedUpTo(before, after, ids, skipped, i + 1, files[job.id := job], jobs + [job])
  {
    var after := Restamped(before, uuid, skipped);
    OverwrittenAt(before, after, ids, i, ids[i]);
    ListedSnoc(after, ids, skipped, i);
  }

  lemma ListEnds(before: Files, after: Files, ids: seq<string>, skipped: iset<string>, files: Files, jobs: seq<Job>)
    requires before.Keys == after.Keys && (forall k | 0 <= k < |ids| :: ids[k] in after) && (forall id | id in after :: id in ids)
    requires ListedUpTo(before, after, ids, skipped, |ids|, files, jobs)
    ensures files == after && |jobs| <= |ids|
    ensures forall id | id in files && id !in skipped :: files[id] in jobs
    ensures forall job | job in jobs :: exists id :: id in files && id !in skipped && job == files[id]
  {
    OverwrittenAll(before, after, ids);
    ListedExactly(after, ids, skipped);
    assert ids[..|ids|] == ids;
  }

  lemma ListedSnoc(after: Files, ids: seq<string>, skipped: iset<string>, i: nat)
    requires i < |ids| && forall k | 0 <= k < |ids| :: ids[k] in after
    ensures Listed(after, ids[..i + 1], skipped)
            == Listed(after, ids[..i], skipped) + (if ids[i] in skipped then [] else [after[ids[i]]])
  {
    assert ids[..i + 1][..i] == ids[..i];
  }

  lemma {:induction false} ListedExactly(after: Files, ids: seq<string>, skipped: iset<string>)
    requires forall i | 0 <= i < |ids| :: ids[i] in after
    ensures forall i | 0 <= i < |ids| && ids[i] !in skipped :: after[ids[i]] in Listed(after, ids, skipped)
    ensures forall job | job in Listed(after, ids, skipped) :: exists i :: 0 <= i < |ids| && ids[i] !in skipped && job == after[ids[i]]
    ensures |Listed(after, ids, skipped)| <= |ids|
  {
    if ids != [] {
      var front, last := ids[..|ids| - 1], ids[|ids| - 1];
      ListedExactly(after, front, skipped);
      forall job | job in Listed(after, ids, skipped)
        ensures exists i :: 0 <= i < |ids| && ids[i] !in skipped && job == after[ids[i]]
      {
        if job in Listed(after, front, skipped) {
          var i :| 0 <= i < |front| && front[i] !in skipped && job == after[front[i]];
          assert ids[i] == front[i];
        } else {
          assert job == after[ids[|ids| - 1]];
        }
      }
    }
  }

  class Store {
    var files: Files

    constructor ()
      ensures files == map[]
    {
      files := map[];
    }

    method Create(job: Job, uuid: string) returns (r: Result<Job, StoreError>)
      modifies this
      ensures ValidId(job.id) ==> job.id in files && SameJob(files[job.id], job)
      ensures r == if ValidId(job.id) then Ok(Stamp(job, uuid)) else Err(InvalidId)
      ensures files == Apply(old(files), Put(job, uuid))
    {
      if !ValidId(job.id) {
        return Err(InvalidId);
      }
      var stamped := Stamp(job, uuid);
      files := files[job.id := stamped];
      r := Ok(stamped);
    }

    method Update(job: Job, uuid: string) returns (r: Result<Job, StoreError>)
      modifies this
      ensures ValidId(job.id) ==> job.id in files && SameJob(files[job.id], job)
      ensures r == if ValidId(job.id) then Ok(Stamp(job, uuid)) else Err(InvalidId)
      ensures files == Apply(old(files), Put(job, uuid))
    {
      if !ValidId(job.id) {
        return Err(InvalidId);
      }
      r := Ok(Stamp(job, uuid));
      files := files[job.id := r.value];
    }

    method Get(id: string, uuid: string) returns (r: Result<Job, StoreError>)
      requires WellNamed(files)
      modifies this
      ensures WellNamed(files)
      ensures r == match ReadResult(old(files), id, "") case Ok(job) => Ok(Stamp(job, uuid)) case Err(e) => Err(e)
      ensures files == Apply(old(files), Refresh(id, uuid))
      ensures r.Ok? <==> ValidId(id) && id in old(files)
      ensures r.Ok? ==> SameJob(r.value, old(files)[id]) && r.value.readToken == uuid && files == old(files)[id := r.value]
    {
      if !ValidId(id) {
        return Err(InvalidId);
      }
      if id !in files {
        return Err(NotFound);
      }
      var job := Stamp(files[id], uuid);
      files := files[job.id := job];
      r := Ok(job);
    }

    method Read(id: string, expected: string) returns (r: Result<Job, StoreError>)
      ensures r == ReadResult(files, id, expected)
      ensures r.Ok? <==> ValidId(id) && id in files && (expected == "" || files[id].readToken == expected)
      ensures r.Ok? ==> r.value == files[id]
      ensures r.Err? ==> r.error == if !ValidId(id) then InvalidId else if id !in files then NotFound else Modified
    {
      if !ValidId(id) {
        return Err(InvalidId);
      }
      if id !in files {
        return Err(NotFound);
      }
      if expected != "" && files[id].readToken != expected {
        return Err(Modified);
      }
      r := Ok(files[id]);
    }

    method ListJobIds() returns (ids: seq<string>)
      ensures |ids| == |files| && (forall i | 0 <= i < |ids| :: ids[i] in files) && (forall id | id in files :: id in ids)
    {
      ids := [];
      var rest := files.Keys;
      while rest != {}
        invariant rest <= files.Keys && |ids| + |rest| == |files|
        invariant forall i | 0 <= i < |ids| :: ids[i] in files
        invariant forall id | id in files :: id in rest || id in ids
        decreases |rest|
      {
        var id :| id in rest;
        ids, rest := ids + [id], rest - {id};
      }
    }

    /**
      Every job, each written back with the fresh token `uuid` has for it; jobs
      whose file cannot be loaded or written back are skipped and stay as they are.
      */
    method List(uuid: map<string, string>, skipped: iset<string>) returns (jobs: seq<Job>)
      requires WellNamed(files) && files.Keys <= uuid.Keys
      modifies this
      ensures files == Restamped(old(files), uuid, skipped)
      ensures files.Keys == old(files).Keys
      ensures forall id | id in files && id in skipped :: files[id] == old(files)[id]
      ensures forall id | id in files && id !in skipped :: SameJob(files[id], old(files)[id]) && files[id].readToken == uuid[id]
      ensures forall id | id in files && id !in skipped :: files[id] in jobs
      ensures forall job | job in jobs :: exists id :: id in files && id !in skipped && job == files[id]
      ensures |jobs| <= |files|
    {
      jobs := [];
      var ids := ListJobIds();
      ghost var before, after := files, Restamped(files, uuid, skipped);
      for i := 0 to |ids|
        invariant ListedUpTo(before, after, ids, skipped, i, files, jobs)
      {
        ListStep(before, uuid, skipped, ids, i, files, jobs);
        if ids[i] !in skipped {
          var job := Stamp(files[ids[i]], uuid[ids[i]]);
          files := files[job.id := job];
          jobs := jobs + [job];
        }
      }
      ListEnds(before, after, ids, skipped, files, jobs);
    }

    method Delete(id: string, expected: string) returns (error: Option<StoreError>)
      modifies this
      ensures error == DeleteError(old(files), id, expected)
      ensures files == Apply(old(files), Remove(id, expected))
      ensures error.None? <==> ValidId(id) && (expected == "" || (id in old(files) && old(files)[id].readToken == expected))
      ensures files == if error.None? then old(files) - {id} else old(files)
    {
      if !ValidId(id) {
        return Some(InvalidId);
      }
      if expected != "" {
        if id !in files {
          return Some(NotFound);
        }
        if files[id].readToken != expected {
          return Some(Modified);
        }
      }
      files := files - {id};
      error := None;
    }
  }

  // ----- Optimistic concurrency over runs -----

  lemma ApplyKeepsWellNamed(files: Files, op: Op)
    requires WellNamed(files)
    ensures WellNamed(Apply(files, op))
  {
  }

  function After(files: Files, ops: seq<Op>, n: nat): Files
    requires n <= |ops|
  {
    if n == 0 then files else Apply(After(files, ops, n - 1), ops[n - 1])
  }

  function Token(op: Op): Option<string> {
    if op.Remove? then None else Some(op.uuid)
  }

  /** Tokens are never empty, never reused, and differ from those already in the files. */
  ghost predicate FreshTokens(files: Files, ops: seq<Op>) {
    && (forall i | 0 <= i < |ops| && Token(ops[i]).Some? :: Token(ops[i]).value != "")
    && (forall i, j | 0 <= i < j < |ops| && Token(ops[i]).Some? && Token(ops[j]).Some? ::
          Token(ops[i]).value != Token(ops[j]).value)
    && (forall i, id | 0 <= i < |ops| && Token(ops[i]).Some? && id in files :: files[id].readToken != Token(ops[i]).value)
  }

  /** The op writes the file of `id`. */
  predicate Writes(files: Files, op: Op, id: string) {
    match op
    case Put(job, _) => job.id == id && ValidId(id)
    case Refresh(i, _) => i == id && ReadResult(files, id, "").Ok?
    case Remove(_, _) => false
  }

  /** The op writes or deletes the file of `id`; a rejected op does neither. */
  predicate Touches(files: Files, op: Op, id: string) {
    Writes(files, op, id) || (op.Remove? && op.id == id && DeleteError(files, id, op.expected).None?)
  }

  /** A token in the files comes from the start or from an op already run. */
  lemma {:induction false} TokensHaveAnIssuer(files: Files, ops: seq<Op>, n: nat, id: string)
    requires n <= |ops| && id in After(files, ops, n)
    ensures || (id in files && After(files, ops, n)[id].readToken == files[id].readToken)
            || exists i :: 0 <= i < n && Token(ops[i]) == Some(After(files, ops, n)[id].readToken)
  {
    if n > 0 {
      var before, after := After(files, ops, n - 1), After(files, ops, n);
      if id in before && after[id] == before[id] {
        TokensHaveAnIssuer(files, ops, n - 1, id);
      } else {
        assert Token(ops[n - 1]) == Some(after[id].readToken);
      }
    }
  }

  /** The job is stored, and under this token. */
  predicate Opens(files: Files, id: string, token: string) {
    id in files && files[id].readToken == token
  }

  ghost predicate Untouched(files: Files, ops: seq<Op>, i: nat, n: nat, id: string)
    requires n <= |ops|
  {
    forall k | i < k < n :: !Touches(After(files, ops, k), ops[k], id)
  }

  lemma UntouchedStep(files: Files, op: Op, id: string)
    requires !Touches(files, op, id)
    ensures (id in Apply(files, op) <==> id in files) && (id in files ==> Apply(files, op)[id] == files[id])
  {
  }

  lemma TouchedStep(files: Files, op: Op, id: string, token: string)
    requires Token(op) != Some(token)
    requires Touches(files, op, id) || !Opens(files, id, token)
    ensures !Opens(Apply(files, op), id, token)
  {
  }

  lemma WriteStep(files: Files, op: Op, id: string)
    requires Writes(files, op, id)
    ensures Opens(Apply(files, op), id, Token(op).value)
  {
  }

  lemma UntouchedLonger(files: Files, ops: seq<Op>, i: nat, n: nat, id: string)
    requires i + 1 < n <= |ops|
    ensures Untouched(files, ops, i, n, id)
            <==> Untouched(files, ops, i, n - 1, id) && !Touches(After(files, ops, n - 1), ops[n - 1], id)
  {
  }

  /** As long as the job is untouched its token opens it and it stays as it was; afterwards the token is dead. */
  ghost predicate OpensAsWritten(files: Files, ops: seq<Op>, i: nat, n: nat, id: string, token: string)
    requires i < n <= |ops|
  {
    && (Opens(After(files, ops, n), id, token) <==> Untouched(files, ops, i, n, id))
    && (Untouched(files, ops, i, n, id) ==>
          id in After(files, ops, i + 1) && After(files, ops, n)[id] == After(files, ops, i + 1)[id])
  }

  lemma OpensAsWrittenStep(files: Files, ops: seq<Op>, i: nat, n: nat, id: string, token: string)
    requires i + 1 < n <= |ops| && OpensAsWritten(files, ops, i, n - 1, id, token) && Token(ops[n - 1]) != Some(token)
    ensures OpensAsWritten(files, ops, i, n, id, token)
  {
    UntouchedLonger(files, ops, i, n, id);
    StepPreserves(After(files, ops, n - 1), ops[n - 1], id, token);
  }

  lemma {:induction false} OpensWhileUntouched(files: Files, ops: seq<Op>, i: nat, n: nat, id: string, token: string)
    requires FreshTokens(files, ops) && i < n <= |ops|
    requires Writes(After(files, ops, i), ops[i], id) && token == Token(ops[i]).value
    ensures OpensAsWritten(files, ops, i, n, id, token)
    decreases n
  {
    if n == i + 1 {
      WriteStep(After(files, ops, i), ops[i], id);
    } else {
      OpensWhileUntouched(files, ops, i, n - 1, id, token);
      OpensAsWrittenStep(files, ops, i, n, id, token);
    }
  }

  lemma StepPreserves(files: Files, op: Op, id: string, token: string)
    requires Token(op) != Some(token)
    ensures Opens(Apply(files, op), id, token) <==> Opens(files, id, token) && !Touches(files, op, id)
    ensures Opens(Apply(files, op), id, token) ==> Apply(files, op)[id] == files[id]
  {
    if Touches(files, op, id) || !Opens(files, id, token) {
      TouchedStep(files, op, id, token);
    } else {
      UntouchedStep(files, op, id);
    }
  }

  /**
    In every run with fresh tokens, the token issued by write `i` to a job still
    opens it exactly as long as no later op wrote or deleted the job, and then
    the job read is the one that write stored.
    */
  lemma TokenProvesUnchanged(files: Files, ops: seq<Op>, i: nat, n: nat, id: string)
    requires FreshTokens(files, ops) && i < n <= |ops|
    requires Writes(After(files, ops, i), ops[i], id)
    ensures var r := ReadResult(After(files, ops, n), id, Token(ops[i]).value);
            if Untouched(files, ops, i, n, id)
            then id in After(files, ops, i + 1) && r == Ok(After(files, ops, i + 1)[id])
            else r.Err?
  {
    OpensWhileUntouched(files, ops, i, n, id, Token(ops[i]).value);
  }

  /** What Create or Update was given is what is read back with its token, but for the token, until a later op touches the job. */
  lemma ReadsWhatWasGiven(files: Files, ops: seq<Op>, i: nat, n: nat)
    requires FreshTokens(files, ops) && i < n <= |ops| && ops[i].Put? && ValidId(ops[i].job.id)
    ensures var r := ReadResult(After(files, ops, n), ops[i].job.id, ops[i].uuid);
            if Untouched(files, ops, i, n, ops[i].job.id)
            then r.Ok? && SameJob(r.value, ops[i].job) && r.value.readToken == ops[i].uuid
            else r.Err?
  {
    TokenProvesUnchanged(files, ops, i, n, ops[i].job.id);
  }

  /** The same for Delete: the token deletes only what its holder saw, and a rejected Delete changes nothing. */
  lemma DeleteNeedsTheLatestToken(files: Files, ops: seq<Op>, i: nat, n: nat, id: string)
    requires FreshTokens(files, ops) && i < n <= |ops|
    requires Writes(After(files, ops, i), ops[i], id)
    ensures var now, token := After(files, ops, n), Token(ops[i]).value;
            if Untouched(files, ops, i, n, id)
            then id in now && Apply(now, Remove(id, token)) == now - {id}
            else Apply(now, Remove(id, token)) == now
  {
    TokenProvesUnchanged(files, ops, i, n, id);
    DeletesWhatItReads(After(files, ops, n), id, Token(ops[i]).value);
  }

  lemma DeletesWhatItReads(files: Files, id: string, token: string)
    requires token != ""
    ensures Apply(files, Remove(id, token)) == if ReadResult(files, id, token).Ok? then files - {id} else files
  {
  }

  /** A token nobody issued opens nothing. */
  lemma UnissuedTokenIsRejected(files: Files, ops: seq<Op>, n: nat, id: string, token: string)
    requires n <= |ops| && token != ""
    requires forall i | 0 <= i < n :: Token(ops[i]) != Some(token)
    requires id in files ==> files[id].readToken != token
    ensures ReadResult(After(files, ops, n), id, token).Err?
  {
    if id in After(files, ops, n) {
      TokensHaveAnIssuer(files, ops, n, id);
    }
  }
}
