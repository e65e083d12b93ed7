/**
 The credential store over the vendor-credential repository: sealed rows, and the
 cache of digests that lets a save of unchanged content skip the write. Any
 repository call may fail with or without having taken effect.
 */
module CredentialStore {
  import opened Options
  import Sorting
  import Text

  type Id = string
  type Plaintext = string

  // ---- Sealing and hashing, taken as abstract functions ----

  /**
   What a row's sealed column holds: a plaintext sealed under an id with a fresh nonce, or
   bytes this key does not open.
   */
  datatype Sealed = SealedAs(id: Id, nonce: nat, plaintext: Plaintext) | Foreign(bytes: seq<bv8>)

  /** Opening undoes sealing under the same id, and under no other. */
  function Open(id: Id, sealed: Sealed): Option<Plaintext> {
    match sealed
    case SealedAs(i, _, plaintext) => if i == id then Some(plaintext) else None
    case Foreign(_) => None
  }

  /** A collision-free digest. */
  datatype Digest = DigestOf(plaintext: Plaintext)

  // ---- The repository, by its contract ----

  datatype Row = Row(sealed: Sealed, createdAt: int, updatedAt: int)
  type Rows = map<Id, Row>

  /** How a repository call fares: it works, fails without effect, or fails having taken effect. */
  datatype Fault = Works | FailsBefore | FailsAfter

  function Upserted(rows: Rows, id: Id, row: Row): Rows {
    rows[id := if id in rows then row.(createdAt := rows[id].createdAt) else row]
  }

  class Repo {
    var rows: Rows
    ghost var writes: nat

    constructor (rows: Rows)
      ensures this.rows == rows && writes == 0
    {
      this.rows, this.writes := rows, 0;
    }

    method Upsert(id: Id, row: Row, fault: Fault) returns (ok: bool)
      modifies this
      ensures writes == old(writes) + 1 && ok == fault.Works?
      ensures rows == if fault.FailsBefore? then old(rows) else Upserted(old(rows), id, row)
    {
      writes := writes + 1;
      if fault != FailsBefore { rows := Upserted(rows, id, row); }
      return fault.Works?;
    }

    /** found is false when the repository reports that there is no such row. */
    method Update(id: Id, row: Row, fault: Fault) returns (ok: bool, found: bool)
      modifies this
      ensures writes == old(writes) + 1
      ensures ok == (fault.Works? && id in old(rows)) && found == (fault.Works? ==> id in old(rows))
      ensures rows == if fault.FailsBefore? || id !in old(rows) then old(rows) else Upserted(old(rows), id, row)
    {
      writes := writes + 1;
      ok := fault.Works? && id in rows;
      found := fault.Works? ==> id in rows;
      if fault != FailsBefore && id in rows { rows := Upserted(rows, id, row); }
    }

    method Delete(id: Id, fault: Fault) returns (ok: bool)
      modifies this
      ensures ok == fault.Works?
      ensures rows == if fault.FailsBefore? then old(rows) else old(rows) - {id}
    {
      if fault != FailsBefore { rows := rows - {id}; }
      return fault.Works?;
    }
  }

  // ---- One operation on the rows and the cache ----

  /** The account being saved: content is the canonical JSON it serialises to, absent when that fails. */
  datatype Auth = Auth(fileName: string, id: Id, weightValid: bool, content: Option<Plaintext>)

  /** The row id: the file name, else the id. */
  function CredentialKey(a: Auth): Id {
    var name := Text.TrimSpace(a.fileName);
    if name != "" then name else a.id
  }

  datatype State = State(rows: Rows, digests: map<Id, Digest>)

  datatype Operation =
    | Save(auth: Auth, creating: bool, now: int, nonce: nat, sealFails: bool, fault: Fault)
    | Delete(id: Id, fault: Fault)
    | List(fault: Fault, malformed: set<Plaintext>)

  datatype Result = Saved(key: Id) | Removed | Listed | Done | Error

  predicate Acceptable(a: Auth) {
    CredentialKey(a) != "" && a.weightValid && a.content.Some?
  }

  /** A runtime save of exactly what the cache says the row holds. */
  predicate Skips(s: State, a: Auth, creating: bool)
    requires Acceptable(a)
  {
    !creating && CredentialKey(a) in s.digests && s.digests[CredentialKey(a)] == DigestOf(a.content.value)
  }

  predicate Readable(rows: Rows, malformed: set<Plaintext>) {
    forall id | id in rows :: Open(id, rows[id].sealed).Some? && Open(id, rows[id].sealed).value !in malformed
  }

  /** The digests of rows that all open. */
  function DigestsOf(rows: Rows): map<Id, Digest> {
    map id | id in rows && Open(id, rows[id].sealed).Some? :: DigestOf(Open(id, rows[id].sealed).value)
  }

  function SaveResult(s: State, a: Auth, creating: bool, sealFails: bool, fault: Fault): Result {
    if !Acceptable(a) then Error
    else if Skips(s, a, creating) then Saved(CredentialKey(a))
    else if sealFails || !fault.Works? then Error
    else if !creating && CredentialKey(a) !in s.rows then Removed
    else Saved(CredentialKey(a))
  }

  function SaveState(s: State, a: Auth, creating: bool, now: int, nonce: nat, sealFails: bool, fault: Fault): State {
    if !Acceptable(a) || Skips(s, a, creating) then s
    else
      var key := CredentialKey(a);
      var row := Row(SealedAs(key, nonce, a.content.value), now, now);
      var touches := !sealFails && !fault.FailsBefore? && (creating || key in s.rows);
      State(if touches then Upserted(s.rows, key, row) else s.rows,
            if SaveResult(s, a, creating, sealFails, fault).Saved? then s.digests[key := DigestOf(a.content.value)]
            else s.digests - {key})
  }

  function Next(s: State, op: Operation): State {
    match op
    case Save(a, creating, now, nonce, sealFails, fault) => SaveState(s, a, creating, now, nonce, sealFails, fault)
    case Delete(id, fault) => State(if fault.FailsBefore? then s.rows else s.rows - {id}, s.digests - {id})
    case List(fault, malformed) =>
      if fault.Works? && Readable(s.rows, malformed) then s.(digests := DigestsOf(s.rows)) else s
  }

  // ---- The store as the source keeps it ----

  class Store {
    const repo: Repo
    var digests: map<Id, Digest>

    constructor (repo: Repo)
      ensures this.repo == repo && digests == map[]
    {
      this.repo, digests := repo, map[];
    }

    ghost function View(): State
      reads this, repo
    {
      State(repo.rows, digests)
    }

    method Save(a: Auth, creating: bool, now: int, nonce: nat, sealFails: bool, fault: Fault) returns (r: Result)
      modifies this, repo
      ensures View() == Next(old(View()), Operation.Save(a, creating, now, nonce, sealFails, fault))
      ensures r == SaveResult(old(View()), a, creating, sealFails, fault)
      ensures repo.writes == old(repo.writes) +
                             if Acceptable(a) && !Skips(old(View()), a, creating) && !sealFails then 1 else 0
      ensures old(Coherent(View())) ==> Coherent(View())
      ensures old(Coherent(View())) && r.Saved? ==>
                r.key == CredentialKey(a) && r.key in repo.rows && Open(r.key, repo.rows[r.key].sealed) == a.content
      ensures !creating ==> repo.rows.Keys == old(repo.rows.Keys)
    {
      ghost var before := View();
      var key := CredentialKey(a);
      if key == "" || !a.weightValid || a.content.None? { return Error; }
      var digest := DigestOf(a.content.value);
      if key in digests && digests[key] == digest && !creating {
        return Saved(key);
      }
      digests := digests - {key};
      if sealFails { return Error; }
      var row := Row(SealedAs(key, nonce, a.content.value), now, now);
      var ok, found := Write(key, row, creating, fault);
      if !found { return Removed; }
      if !ok { return Error; }
      digests := digests[key := digest];
      assert digests == before.digests[key := digest];
      return Saved(key);
    }

    /** A login inserts its row; a runtime save only ever updates one. */
    method Write(key: Id, row: Row, creating: bool, fault: Fault) returns (ok: bool, found: bool)
      modifies repo
      ensures var reaches := creating || key in old(repo.rows);
              && repo.rows ==
                 (if fault.FailsBefore? || !reaches then old(repo.rows) else Upserted(old(repo.rows), key, row))
              && ok == (fault.Works? && reaches) && found == (fault.Works? ==> reaches)
      ensures repo.writes == old(repo.writes) + 1
    {
      if creating {
        found := true;
        ok := repo.Upsert(key, row, fault);
      } else {
        ok, found := repo.Update(key, row, fault);
      }
    }

    method Delete(id: Id, fault: Fault) returns (ok: bool)
      modifies this, repo
      ensures View() == Next(old(View()), Operation.Delete(id, fault)) && ok == fault.Works?
      ensures ok ==> id !in repo.rows
      ensures old(Coherent(View())) ==> Coherent(View())
    {
      digests := digests - {id};
      ok := repo.Delete(id, fault);
    }

    /** List opens every row, in whatever order, and fails on the first that does not open or parse. */
    method List(fault: Fault, malformed: set<Plaintext>) returns (accounts: Option<map<Id, Plaintext>>)
      modifies this
      ensures View() == Next(old(View()), Operation.List(fault, malformed))
      ensures accounts.Some? <==> fault.Works? && Readable(repo.rows, malformed)
      ensures accounts.Some? ==>
                && accounts.value.Keys == digests.Keys == repo.rows.Keys
                && forall id | id in repo.rows :: Open(id, repo.rows[id].sealed) == Some(accounts.value[id])
      ensures old(Coherent(View())) ==> Coherent(View())
    {
      if !fault.Works? { return None; }
      var read := ReadRows(repo.rows, malformed);
      if read.None? { return None; }
      digests := map id | id in read.value :: DigestOf(read.value[id]);
      assert digests == DigestsOf(repo.rows);
      return read;
    }
  }

  /** Opens and parses every row; none is returned when one of them fails. */
  method ReadRows(rows: Rows, malformed: set<Plaintext>) returns (read: Option<map<Id, Plaintext>>)
    ensures read.Some? <==> Readable(rows, malformed)
    ensures read.Some? ==> read.value.Keys == rows.Keys
                           && forall id | id in rows :: Open(id, rows[id].sealed) == Some(read.value[id])
  {
    var contents: map<Id, Plaintext> := map[];
    var left := rows.Keys;
    while left != {}
      invariant left <= rows.Keys
      invariant forall id :: id in contents <==> id in rows && id !in left
      invariant forall id | id in contents ::
                  Open(id, rows[id].sealed) == Some(contents[id]) && contents[id] !in malformed
      decreases |left|
    {
      var id := Sorting.Take(left);
      var plaintext := Open(id, rows[id].sealed);
      if plaintext.None? || plaintext.value in malformed { return None; }
      contents := contents[id := plaintext.value];
      left := left - {id};
    }
    assert contents.Keys == rows.Keys;
    return Some(contents);
  }

  // ---- Main results ----

  /** Every digest held belongs to a row that opens to exactly that plaintext. */
  ghost predicate Coherent(s: State) {
    forall id | id in s.digests :: id in s.rows && Open(id, s.rows[id].sealed) == Some(s.digests[id].plaintext)
  }

  function After(s: State, run: seq<Operation>): State
    decreases |run|
  {
    if run == [] then s else After(Next(s, run[0]), run[1..])
  }

  /** The cache is never wrong about a row, after any operations with any faults. */
  lemma {:induction false} CacheIsNeverWrong(s: State, run: seq<Operation>)
    requires Coherent(s)
    ensures Coherent(After(s, run))
    decreases |run|
  {
    if run != [] { CacheIsNeverWrong(Next(s, run[0]), run[1..]); }
  }

  /**
   Whatever happened before, a save that returns its key leaves the row opening to
   the saved content, whether or not it wrote; and one without creation intent
   never adds or removes a row.
   */
  lemma SaveIsTrue(rows: Rows, run: seq<Operation>, op: Operation)
    requires op.Save?
    ensures var s := After(State(rows, map[]), run);
            var t := Next(s, op);
            && (SaveResult(s, op.auth, op.creating, op.sealFails, op.fault).Saved? ==>
                  CredentialKey(op.auth) in t.rows
                  && Open(CredentialKey(op.auth), t.rows[CredentialKey(op.auth)].sealed) == op.auth.content)
            && (!op.creating ==> t.rows.Keys == s.rows.Keys)
            && (forall id | id != CredentialKey(op.auth) :: id in t.rows <==> id in s.rows)
            && (forall id | id in s.rows && id != CredentialKey(op.auth) :: t.rows[id] == s.rows[id])
  {
    CacheIsNeverWrong(State(rows, map[]), run);
  }

  /** Saving again what a save just stored changes nothing, whatever would happen to the write it does not make. */
  lemma SavingAgainIsSkipped(s: State, op: Operation, again: Operation)
    requires op.Save? && again.Save? && !again.creating && again.auth.content == op.auth.content
    requires Acceptable(again.auth) && CredentialKey(again.auth) == CredentialKey(op.auth)
    requires SaveResult(s, op.auth, op.creating, op.sealFails, op.fault).Saved?
    ensures Next(Next(s, op), again) == Next(s, op)
    ensures SaveResult(Next(s, op), again.auth, false, again.sealFails, again.fault) == Saved(CredentialKey(op.auth))
  {
  }

  /** After a list, and only operations on other accounts, a runtime save of the listed content is skipped. */
  lemma {:induction false} ListedContentIsSkipped(s: State, malformed: set<Plaintext>, run: seq<Operation>, a: Auth)
    requires Readable(s.rows, malformed) && Acceptable(a) && CredentialKey(a) in s.rows
    requires Open(CredentialKey(a), s.rows[CredentialKey(a)].sealed) == a.content
    requires forall op | op in run :: !op.List? &&
               (op.Save? ==> CredentialKey(op.auth) != CredentialKey(a)) && (op.Delete? ==> op.id != CredentialKey(a))
    ensures Skips(After(Next(s, List(Works, malformed)), run), a, false)
  {
    OthersKeepDigest(Next(s, List(Works, malformed)), run, CredentialKey(a));
  }

  lemma {:induction false} OthersKeepDigest(s: State, run: seq<Operation>, key: Id)
    requires key in s.digests
    requires forall op | op in run :: !op.List? &&
               (op.Save? ==> CredentialKey(op.auth) != key) && (op.Delete? ==> op.id != key)
    ensures key in After(s, run).digests && After(s, run).digests[key] == s.digests[key]
    decreases |run|
  {
    if run != [] {
      assert run[0] in run;
      OthersKeepDigest(Next(s, run[0]), run[1..], key);
    }
  }

  /** A row keeps the time it was created at as long as it exists; one a save creates gets the save's time. */
  lemma CreatedOnce(s: State, op: Operation, id: Id)
    requires id in Next(s, op).rows
    ensures id in s.rows ==> Next(s, op).rows[id].createdAt == s.rows[id].createdAt
    ensures id !in s.rows ==>
              op.Save? && op.creating && id == CredentialKey(op.auth) && Next(s, op).rows[id].createdAt == op.now
    ensures id in s.rows && Next(s, op).rows[id] != s.rows[id] ==>
              op.Save? && id == CredentialKey(op.auth) && Next(s, op).rows[id].updatedAt == op.now
  {
  }

  /** Over any operations that leave the row in place, its creation time is the one it had. */
  lemma {:induction false} CreationTimeSurvives(s: State, run: seq<Operation>, id: Id)
    requires id in s.rows && forall n | 0 <= n <= |run| :: id in After(s, run[..n]).rows
    ensures id in After(s, run).rows && After(s, run).rows[id].createdAt == s.rows[id].createdAt
    decreases |run|
  {
    if run == [] {
      assert run[..0] == [];
    } else {
      var t := Next(s, run[0]);
      forall n | 0 <= n <= |run[1..]| ensures id in After(t, run[1..][..n]).rows {
        assert run[..n + 1][0] == run[0] && run[..n + 1][1..] == run[1..][..n];
        assert id in After(s, run[..n + 1]).rows;
      }
      assert run[1..][..0] == [];
      CreatedOnce(s, run[0], id);
      CreationTimeSurvives(t, run[1..], id);
    }
  }

  /** A runtime save that reaches the repository and finds no row says so; a login always saves. */
  lemma SaveSaysWhatItFound(s: State, a: Auth, creating: bool, now: int, nonce: nat)
    requires Acceptable(a) && Coherent(s)
    ensures SaveResult(s, a, creating, false, Works) ==
            if creating || CredentialKey(a) in s.rows then Saved(CredentialKey(a)) else Removed
  {
  }

  /** The row id is the file name without the space around it, or the account's id when that is blank. */
  lemma KeyIsFileName(left: string, name: string, right: string, a: Auth)
    requires Text.AllSpace(left) && Text.AllSpace(right) && Text.Trimmed(name)
    ensures CredentialKey(a.(fileName := left + name + right)) == if name == "" then a.id else name
  {
    Text.TrimmedMiddle(left, name, right);
  }

  /** A sealed row opens under its own id alone: moved under another, or not this key's, it stops a list. */
  lemma MisplacedRowStopsList(rows: Rows, malformed: set<Plaintext>, id: Id, other: Id, nonce: nat,
      plaintext: Plaintext)
    requires id in rows
    ensures rows[id].sealed == SealedAs(id, nonce, plaintext) ==> Open(id, rows[id].sealed) == Some(plaintext)
    ensures rows[id].sealed == SealedAs(other, nonce, plaintext) && other != id ==> !Readable(rows, malformed)
    ensures rows[id].sealed.Foreign? ==> !Readable(rows, malformed)
    ensures rows[id].sealed == SealedAs(id, nonce, plaintext) && plaintext in malformed ==> !Readable(rows, malformed)
  {
  }
}
