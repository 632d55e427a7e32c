/**
 Creating an organization: a bounded slug retry loop behind savepoints, inside a transaction that commits or is
 rolled back. Any statement may fail: its number is then in faults.
 */
module OrgCreation {
  import opened Common

  type OrgId = int
  type User = int

  datatype Org = Org(name: string, slug: string, personal: bool)
  datatype Entry = Created(org: OrgId, owner: User)

  /** owners: the active owner memberships; log: the organization.created audit entries. */
  datatype Tables = Tables(orgs: map<OrgId, Org>, owners: set<(OrgId, User)>, log: seq<Entry>)

  /** uuid.Nil */
  const NIL: OrgId := 0
  const MAX_ATTEMPTS: nat := 5

  function Slugs(t: Tables): set<string> {
    set id | id in t.orgs :: t.orgs[id].slug
  }

  // ---------------------------------------------------------------------------------------------------
  // Specification
  // ---------------------------------------------------------------------------------------------------

  /** The slug of an attempt; later ones have a random suffix, unless the random source fails. */
  function Candidate(plain: string, suffixes: seq<Option<string>>, i: nat): Option<string>
    requires |suffixes| == MAX_ATTEMPTS - 1 && i < MAX_ATTEMPTS
  {
    if i == 0 then Some(plain)
    else if suffixes[i - 1].None? then None
    else Some((if plain == "" then "org" else plain) + "-" + suffixes[i - 1].value)
  }

  /** The slug of the first attempt from i on that is not taken. */
  function FirstFree(taken: set<string>, plain: string, suffixes: seq<Option<string>>, i: nat): Result<string>
    requires |suffixes| == MAX_ATTEMPTS - 1 && i <= MAX_ATTEMPTS
    decreases MAX_ATTEMPTS - i
  {
    if i == MAX_ATTEMPTS then Err(OrganizationSlugExists)
    else
      match Candidate(plain, suffixes, i)
      case None => Err(InternalServer)
      case Some(slug) => if slug in taken then FirstFree(taken, plain, suffixes, i + 1) else Ok(slug)
  }

  /** What FirstFree means: earlier attempts are taken, and it gives up only when all five are. */
  lemma {:induction false} FirstFreeExactly(taken: set<string>, plain: string, suffixes: seq<Option<string>>, i: nat)
    requires |suffixes| == MAX_ATTEMPTS - 1 && i <= MAX_ATTEMPTS
    ensures var r := FirstFree(taken, plain, suffixes, i);
            && (forall slug :: r == Ok(slug) <==>
                  exists n: nat :: i <= n < MAX_ATTEMPTS && IsFree(taken, plain, suffixes, n, slug)
                                   && AllTaken(taken, plain, suffixes, i, n))
            && (r == Err(OrganizationSlugExists) <==> AllTaken(taken, plain, suffixes, i, MAX_ATTEMPTS))
    decreases MAX_ATTEMPTS - i
  {
    if i < MAX_ATTEMPTS {
      FirstFreeExactly(taken, plain, suffixes, i + 1);
      var c := Candidate(plain, suffixes, i);
      if c.Some? && c.value !in taken {
        assert IsFree(taken, plain, suffixes, i, c.value) && AllTaken(taken, plain, suffixes, i, i);
      }
      assert IsTaken(taken, plain, suffixes, i) <==> c.Some? && c.value in taken;
      assert forall n :: i < n <= MAX_ATTEMPTS ==>
          (AllTaken(taken, plain, suffixes, i, n) <==>
             IsTaken(taken, plain, suffixes, i) && AllTaken(taken, plain, suffixes, i + 1, n));
    }
  }

  predicate IsTaken(taken: set<string>, plain: string, suffixes: seq<Option<string>>, n: nat)
    requires |suffixes| == MAX_ATTEMPTS - 1 && n < MAX_ATTEMPTS
  {
    Candidate(plain, suffixes, n).Some? && Candidate(plain, suffixes, n).value in taken
  }

  predicate IsFree(taken: set<string>, plain: string, suffixes: seq<Option<string>>, n: nat, slug: string)
    requires |suffixes| == MAX_ATTEMPTS - 1 && n < MAX_ATTEMPTS
  {
    Candidate(plain, suffixes, n) == Some(slug) && slug !in taken
  }

  /** The attempts i, ..., n - 1 all collide. */
  ghost predicate AllTaken(taken: set<string>, plain: string, suffixes: seq<Option<string>>, i: nat, n: int)
    requires |suffixes| == MAX_ATTEMPTS - 1 && n <= MAX_ATTEMPTS
  {
    forall k :: i <= k < n ==> IsTaken(taken, plain, suffixes, k)
  }

  /** slug is the plain one if that is free, else the one with the first drawn suffix that makes it free. */
  ghost predicate IsFirstFree(taken: set<string>, plain: string, suffixes: seq<Option<string>>, slug: string) {
    slug !in taken &&
    if plain !in taken then slug == plain
    else
      var base := if plain == "" then "org" else plain;
      exists n :: 0 <= n < |suffixes| && suffixes[n].Some? && slug == base + "-" + suffixes[n].value
                  && forall k :: 0 <= k < n ==> suffixes[k].Some? && base + "-" + suffixes[k].value in taken
  }

  /** Every attempt collides: the plain slug and the one with each suffix. */
  ghost predicate AllCollide(taken: set<string>, plain: string, suffixes: seq<Option<string>>) {
    var base := if plain == "" then "org" else plain;
    plain in taken && forall k :: 0 <= k < |suffixes| ==> suffixes[k].Some? && base + "-" + suffixes[k].value in taken
  }

  lemma {:induction false} LaterSlugs(taken: set<string>, plain: string, suffixes: seq<Option<string>>, i: nat)
    requires |suffixes| == 4 && 1 <= i <= 5
    ensures var r, base := FirstFree(taken, plain, suffixes, i), if plain == "" then "org" else plain;
            && (r.Ok? ==> exists n :: i - 1 <= n < 4 && suffixes[n].Some? && r.value == base + "-" + suffixes[n].value
                                      && r.value !in taken
                                      && forall k :: i - 1 <= k < n ==>
                                           suffixes[k].Some? && base + "-" + suffixes[k].value in taken)
            && (r == Err(OrganizationSlugExists) <==>
                  forall k :: i - 1 <= k < 4 ==> suffixes[k].Some? && base + "-" + suffixes[k].value in taken)
            && (r.Err? && r.error != OrganizationSlugExists ==>
                  r == Err(InternalServer) && exists k :: i - 1 <= k < 4 && suffixes[k].None?)
    decreases 5 - i
  {
    if i < 5 {
      LaterSlugs(taken, plain, suffixes, i + 1);
      var base := if plain == "" then "org" else plain;
      var first := suffixes[i - 1];
      if first.Some? && base + "-" + first.value !in taken {
        assert FirstFree(taken, plain, suffixes, i) == Ok(base + "-" + first.value);
      }
    }
  }

  /** The search from the first attempt on, without its recursion. */
  lemma SlugsExactly(taken: set<string>, plain: string, suffixes: seq<Option<string>>)
    requires |suffixes| == 4
    ensures var r := FirstFree(taken, plain, suffixes, 0);
            && (forall slug :: r == Ok(slug) ==> IsFirstFree(taken, plain, suffixes, slug))
            && (r == Err(OrganizationSlugExists) <==> AllCollide(taken, plain, suffixes))
            && ((forall k :: 0 <= k < 4 ==> suffixes[k].Some?) ==> r.Ok? || r == Err(OrganizationSlugExists))
  {
    LaterSlugs(taken, plain, suffixes, 1);
    assert Candidate(plain, suffixes, 0) == Some(plain);
  }

  /** One organization more, with its owner and its audit entry. */
  function WithOrg(t: Tables, id: OrgId, org: Org, owner: User): Tables {
    Tables(t.orgs[id := org], t.owners + {(id, owner)}, t.log + [Created(id, owner)])
  }

  // ---------------------------------------------------------------------------------------------------
  // The transaction
  // ---------------------------------------------------------------------------------------------------

  datatype Failure = UniqueViolation | OtherFailure

  /** After a failed statement every other one fails until a rollback, to a savepoint or of everything. */
  class Tx {
    var tables: Tables
    var nextId: OrgId
    var aborted: bool
    var savepoints: seq<(nat, Tables)>
    var clock: nat
    const faults: set<nat>

    ghost predicate Valid()
      reads this
    {
      nextId > NIL && forall id :: id in tables.orgs ==> NIL < id < nextId
    }

    constructor (tables: Tables, nextId: OrgId, faults: set<nat>)
      requires nextId > NIL && forall id :: id in tables.orgs ==> NIL < id < nextId
      ensures Valid() && this.tables == tables && this.nextId == nextId && this.faults == faults
      ensures !aborted && savepoints == []
    {
      this.tables, this.nextId, this.faults, aborted, savepoints, clock := tables, nextId, faults, false, [], 0;
    }

    /** One statement is sent; it goes through unless the transaction is aborted or the statement fails. */
    method Send() returns (ok: bool)
      modifies this
      ensures tables == old(tables) && nextId == old(nextId) && savepoints == old(savepoints)
      ensures ok == (!old(aborted) && old(clock) !in faults) && aborted == !ok
    {
      ok := !aborted && clock !in faults;
      aborted, clock := !ok, clock + 1;
    }

    method Savepoint(name: nat) returns (ok: bool)
      modifies this
      ensures tables == old(tables) && nextId == old(nextId) && aborted == !ok
      ensures faults == {} && !old(aborted) ==> ok
      ensures ok ==> savepoints == old(savepoints) + [(name, tables)]
    {
      ok := Send();
      if ok { savepoints := savepoints + [(name, tables)]; }
    }

    /** Back to the latest savepoint of that name; later ones are destroyed. */
    method RollbackTo(name: nat) returns (ok: bool)
      modifies this
      ensures nextId == old(nextId)
      ensures var n := Latest(old(savepoints), name);
              if ok then n > 0 && !aborted && tables == old(savepoints)[n - 1].1 && savepoints == old(savepoints)[..n]
              else tables == old(tables) && (faults == {} ==> n == 0)
    {
      var i := |savepoints|;
      assert savepoints[..i] == savepoints;
      while i > 0 && savepoints[i - 1].0 != name
        invariant 0 <= i <= |savepoints| && Latest(savepoints, name) == Latest(savepoints[..i], name)
      {
        assert savepoints[..i][..i - 1] == savepoints[..i - 1];
        i := i - 1;
      }
      ok := clock !in faults && i > 0;
      clock := clock + 1;
      if ok { tables, savepoints, aborted := savepoints[i - 1].1, savepoints[..i], false; }
    }

    /** Forgets the latest savepoint of that name and the later ones, and keeps what was done since. */
    method Release(name: nat) returns (ok: bool)
      modifies this
      ensures tables == old(tables) && nextId == old(nextId)
      ensures var n := Latest(old(savepoints), name);
              if ok then n > 0 && !aborted && savepoints == old(savepoints)[..n - 1]
              else faults == {} && !old(aborted) ==> n == 0
    {
      ok := Send();
      var n := Latest(savepoints, name);
      ok := ok && n > 0;
      if ok { savepoints := savepoints[..n - 1]; } else { aborted := true; }
    }

    /** The unique index on slugs decides; the row's identifier is fresh. */
    method InsertOrg(org: Org) returns (r: Option<Failure>, id: OrgId)
      requires Valid()
      modifies this
      ensures Valid() && nextId >= old(nextId) && savepoints == old(savepoints) && aborted == r.Some?
      ensures r.None? ==> id > NIL && id !in old(tables).orgs && org.slug !in Slugs(old(tables))
                          && tables == old(tables).(orgs := old(tables).orgs[id := org])
      ensures r.Some? ==> tables == old(tables) && id == NIL
      ensures r == Some(UniqueViolation) ==> org.slug in Slugs(old(tables))
      ensures faults == {} && !old(aborted) ==> r != Some(OtherFailure)
    {
      var ok := Send();
      if !ok { return Some(OtherFailure), NIL; }
      if org.slug in Slugs(tables) {
        aborted := true;
        return Some(UniqueViolation), NIL;
      }
      id := nextId;
      tables, nextId := tables.(orgs := tables.orgs[id := org]), nextId + 1;
      r := None;
    }

    /** The lookup of the owner role, the owner membership and the audit entry. */
    method InsertOwner(id: OrgId, owner: User) returns (ok: bool)
      requires Valid()
      modifies this
      ensures Valid() && nextId == old(nextId) && (faults == {} && !old(aborted) ==> ok)
      ensures ok ==> tables == old(tables).(owners := old(tables).owners + {(id, owner)}) && !aborted
    {
      ok := Send();
      if !ok { return; }
      ok := Send();
      if ok { tables := tables.(owners := tables.owners + {(id, owner)}); }
    }

    method Log(entry: Entry) returns (ok: bool)
      requires Valid()
      modifies this
      ensures Valid() && nextId == old(nextId) && (faults == {} && !old(aborted) ==> ok)
      ensures ok ==> tables == old(tables).(log := old(tables).log + [entry]) && !aborted
    {
      ok := Send();
      if ok { tables := tables.(log := tables.log + [entry]); }
    }

    method Commit() returns (ok: bool)
      modifies this
      ensures tables == old(tables) && nextId == old(nextId) && (faults == {} && !old(aborted) ==> ok)
    {
      ok := Send();
    }
  }

  /** The number of savepoints up to the latest one of that name; 0 when there is none. */
  function Latest(savepoints: seq<(nat, Tables)>, name: nat): (n: nat)
    ensures n <= |savepoints|
  {
    if savepoints == [] then 0
    else if savepoints[|savepoints| - 1].0 == name then |savepoints|
    else Latest(savepoints[..|savepoints| - 1], name)
  }

  /** plain is the slug of name; suffixes are the random suffixes of the later attempts. */
  method CreateTx(tx: Tx, name: string, owner: User, personal: bool, plain: string, suffixes: seq<Option<string>>)
    returns (r: Result<OrgId>)
    requires tx.Valid() && !tx.aborted && |suffixes| == MAX_ATTEMPTS - 1
    modifies tx
    ensures tx.Valid() && tx.nextId >= old(tx.nextId)
    ensures r.Ok? ==>
              var slug := FirstFree(Slugs(old(tx.tables)), plain, suffixes, 0);
              && name != "" && slug.Ok? && r.value !in old(tx.tables).orgs && !tx.aborted
              && tx.tables == WithOrg(old(tx.tables), r.value, Org(name, slug.value, personal), owner)
    ensures r.Ok? ==> exists slug ::
                && IsFirstFree(Slugs(old(tx.tables)), plain, suffixes, slug)
                && tx.tables.orgs == old(tx.tables).orgs[r.value := Org(name, slug, personal)]
    ensures r == Err(OrganizationSlugExists) ==> AllCollide(Slugs(old(tx.tables)), plain, suffixes)
    ensures name != "" && tx.faults == {} && (forall k :: 0 <= k < 4 ==> suffixes[k].Some?) ==>
              if AllCollide(Slugs(old(tx.tables)), plain, suffixes) then r == Err(OrganizationSlugExists) else r.Ok?
    ensures r == Err(OrganizationNameInvalid) <==> name == ""
    ensures name != "" && tx.faults == {} ==>
              var slug := FirstFree(Slugs(old(tx.tables)), plain, suffixes, 0);
              if slug.Ok? then r.Ok? else r == Err(slug.error)
    ensures r == Err(OrganizationSlugExists) ==>
              FirstFree(Slugs(old(tx.tables)), plain, suffixes, 0) == Err(OrganizationSlugExists)
  {
    if name == "" { return Err(OrganizationNameInvalid); }
    ghost var start := tx.tables;
    ghost var target := FirstFree(Slugs(start), plain, suffixes, 0);
    SlugsExactly(Slugs(start), plain, suffixes);
    hide IsFirstFree, AllCollide;
    var orgID := NIL;
    var i := 0;
    while i < MAX_ATTEMPTS
      invariant 0 <= i <= MAX_ATTEMPTS && tx.Valid() && !tx.aborted && orgID == NIL && tx.nextId >= old(tx.nextId)
      invariant tx.tables == start && target == FirstFree(Slugs(start), plain, suffixes, i)
    {
      var slug := Candidate(plain, suffixes, i);
      if slug.None? { return Err(InternalServer); }
      var ok := tx.Savepoint(i);
      if !ok { return Err(DatabaseError); }
      var failure;
      failure, orgID := tx.InsertOrg(Org(name, slug.value, personal));
      if failure.Some? {
        ok := tx.RollbackTo(i);
        if !ok { return Err(DatabaseError); }
        if failure.value == UniqueViolation {
          i := i + 1;
          continue;
        }
        return Err(DatabaseError);
      }
      ok := tx.Release(i);
      if !ok { return Err(DatabaseError); }
      break;
    }
    if orgID == NIL { return Err(OrganizationSlugExists); }
    var ok := tx.InsertOwner(orgID, owner);
    if !ok { return Err(DatabaseError); }
    ok := tx.Log(Created(orgID, owner));
    if !ok { return Err(DatabaseError); }
    r := Ok(orgID);
  }

  // ---------------------------------------------------------------------------------------------------
  // The database
  // ---------------------------------------------------------------------------------------------------

  predicate UniqueSlugs(t: Tables) {
    forall a, b :: a in t.orgs && b in t.orgs && t.orgs[a].slug == t.orgs[b].slug ==> a == b
  }

  /** As many organizations as owners and audit entries; each entry is about its own organization and an owner of it. */
  predicate Audited(t: Tables) {
    && |t.owners| == |t.orgs| == |t.log|
    && (forall p :: p in t.owners ==> p.0 in t.orgs)
    && (forall i :: 0 <= i < |t.log| ==> (t.log[i].org, t.log[i].owner) in t.owners)
    && (forall i, j :: 0 <= i < j < |t.log| ==> t.log[i].org != t.log[j].org)
  }

  lemma WithOrgIsConsistent(t: Tables, id: OrgId, org: Org, owner: User)
    requires UniqueSlugs(t) && Audited(t) && id !in t.orgs && org.slug !in Slugs(t)
    ensures UniqueSlugs(WithOrg(t, id, org, owner)) && Audited(WithOrg(t, id, org, owner))
  {
    WithOrgIsUnique(t, id, org, owner);
    WithOrgIsAudited(t, id, org, owner);
  }

  lemma WithOrgIsUnique(t: Tables, id: OrgId, org: Org, owner: User)
    requires UniqueSlugs(t) && id !in t.orgs && org.slug !in Slugs(t)
    ensures UniqueSlugs(WithOrg(t, id, org, owner))
  {
    forall a | a in t.orgs ensures t.orgs[a].slug != org.slug { assert t.orgs[a].slug in Slugs(t); }
  }

  lemma WithOrgIsAudited(t: Tables, id: OrgId, org: Org, owner: User)
    requires Audited(t) && id !in t.orgs
    ensures Audited(WithOrg(t, id, org, owner))
  {
    assert (id, owner) !in t.owners;
    forall i | 0 <= i < |t.log| ensures t.log[i].org != id { assert (t.log[i].org, t.log[i].owner) in t.owners; }
  }

  class Database {
    var tables: Tables
    var nextId: OrgId

    ghost predicate Valid()
      reads this
    {
      && nextId > NIL && (forall id :: id in tables.orgs ==> NIL < id < nextId)
      && UniqueSlugs(tables) && Audited(tables)
    }

    constructor ()
      ensures Valid() && tables == Tables(map[], {}, [])
    {
      tables, nextId := Tables(map[], {}, []), 1;
    }

    /** Create in its own transaction: everything or nothing, whatever statement fails. */
    method Create(name: string, owner: User, personal: bool, plain: string, suffixes: seq<Option<string>>, faults: set<nat>)
      returns (r: Result<OrgId>)
      requires Valid() && |suffixes| == MAX_ATTEMPTS - 1
      modifies this
      ensures Valid()
      ensures r.Err? ==> tables == old(tables)
      ensures r.Ok? ==>
                exists slug ::
                  && slug !in Slugs(old(tables)) && r.value !in old(tables).orgs && name != ""
                  && IsFirstFree(Slugs(old(tables)), plain, suffixes, slug)
                  && tables == WithOrg(old(tables), r.value, Org(name, slug, personal), owner)
      ensures faults == {} ==>
                (r.Ok? <==> name != "" && FirstFree(Slugs(old(tables)), plain, suffixes, 0).Ok?)
      ensures faults == {} && name != "" && (forall k :: 0 <= k < 4 ==> suffixes[k].Some?) ==>
                if AllCollide(Slugs(old(tables)), plain, suffixes) then r == Err(OrganizationSlugExists) else r.Ok?
    {
      var tx := new Tx(tables, nextId, faults);
      r := CreateTx(tx, name, owner, personal, plain, suffixes);
      hide FirstFree, UniqueSlugs, Audited;
      nextId := tx.nextId;
      if r.Ok? {
        var ok := tx.Commit();
        if ok {
          FirstFreeExactly(Slugs(tables), plain, suffixes, 0);
          WithOrgIsConsistent(tables, r.value, tx.tables.orgs[r.value], owner);
          tables := tx.tables;
        } else {
          r := Err(DatabaseError);
        }
      }
    }
  }
}
