/** CRD storage-version migration (`pkg/config/crd_migrator.go`) against an API server that other
    clients keep writing to. The migrator shares nothing with them but the server, so interference
    happens at its API calls: before and after each one, any number of concurrent writes and deletes. */
module Migration {

  type Key = nat
  type Version = string

  /** What other clients do. A create or an update is stored in the storage version. */
  datatype ClientOp = Write(k: Key) | Delete(k: Key)

  /** How the server answers a call; a failed write may have been applied all the same. */
  datatype Reply = Success | Retryable(applied: bool) | Permanent(applied: bool)

  /** A continue token stands for what is left of the snapshot the first page was taken from. */
  datatype Continue = FromStart | More(left: set<Key>) | End

  datatype ListResult = Page(items: set<Key>, next: Continue) | ListError(retryable: bool)
  datatype PatchResult = Patched | NotFound | PatchError(retryable: bool)
  datatype StatusResult = Updated | StatusError(retryable: bool)
  datatype Permission = Allowed | Denied | CheckError

  function Apply(objects: map<Key, Version>, ops: seq<ClientOp>, sv: Version): map<Key, Version> {
    if ops == [] then objects
    else
      var rest := Apply(objects, ops[..|ops| - 1], sv);
      match ops[|ops| - 1]
      case Write(k) => rest[k := sv]
      case Delete(k) => rest - {k}
  }

  /** The objects stored in another version. */
  function StaleKeys(objects: map<Key, Version>, sv: Version): set<Key> {
    set k | k in objects && objects[k] != sv
  }

  /** Other clients never bring a stale object about and never touch one without healing it. */
  lemma {:induction false} InterferenceHeals(objects: map<Key, Version>, ops: seq<ClientOp>, sv: Version)
    ensures var after := Apply(objects, ops, sv);
            && StaleKeys(after, sv) <= StaleKeys(objects, sv)
            && forall k <- StaleKeys(after, sv) :: after[k] == objects[k]
    decreases |ops|
  {
    if ops != [] {
      InterferenceHeals(objects, ops[..|ops| - 1], sv);
    }
  }

  /** A page taken and what is left of the list. */
  ghost predicate PageOf(whole: set<Key>, items: set<Key>, left: set<Key>) {
    items !! left && whole == items + left
  }

  lemma NoPage(whole: set<Key>)
    ensures PageOf(whole, {}, whole)
  {}

  lemma PageStep(whole: set<Key>, items: set<Key>, left: set<Key>, k: Key)
    requires PageOf(whole, items, left) && k in left
    ensures PageOf(whole, items + {k}, left - {k})
    ensures |items + {k}| == |items| + 1 && items + {k} != {} && left - {k} < whole
  {}

  lemma PageFacts(whole: set<Key>, items: set<Key>, left: set<Key>)
    requires PageOf(whole, items, left)
    ensures whole == items + left && (items == {} ==> left == whole)
  {}

  class Cluster {
    /** The storage version of the CRD's spec, fixed while the migration runs. */
    const storageVersion: Version
    /** The concurrent operations and the server's answers, by time: both arbitrary. */
    const world: nat -> seq<ClientOp>
    const replies: nat -> Reply
    const permission: Permission
    /** How many items the server puts on the page it serves at a time, at most the limit. */
    const pageSize: nat -> nat

    var clock: nat
    var objects: map<Key, Version>
    var storedVersions: seq<Version>

    constructor (sv: Version, objects: map<Key, Version>, stored: seq<Version>, world: nat -> seq<ClientOp>,
                 replies: nat -> Reply, permission: Permission, pageSize: nat -> nat)
      ensures this.storageVersion == sv && this.objects == objects && this.storedVersions == stored
    {
      this.storageVersion := sv;
      this.objects := objects;
      this.storedVersions := stored;
      this.world := world;
      this.replies := replies;
      this.permission := permission;
      this.pageSize := pageSize;
      this.clock := 0;
    }

    function Stale(): set<Key>
      reads this
    {
      StaleKeys(objects, storageVersion)
    }

    /** Every version an object is stored in is listed, as is the storage version. */
    ghost predicate Safe()
      reads this
    {
      storageVersion in storedVersions && forall k <- objects :: objects[k] in storedVersions
    }

    /** Concurrent clients run. */
    method Interfere()
      modifies this`clock, this`objects
      ensures clock == old(clock) + 1
      ensures Stale() <= old(Stale())
      ensures old(Safe()) ==> Safe()
    {
      InterferenceHeals(objects, world(clock), storageVersion);
      ghost var before := objects;
      objects := Apply(objects, world(clock), storageVersion);
      clock := clock + 1;
      forall k <- objects
        ensures objects[k] == storageVersion || (k in before && objects[k] == before[k])
      {
        assert objects[k] != storageVersion ==> k in Stale();
      }
    }

    /** One page of a consistent list, or an error. */
    method List(limit: nat, token: Continue) returns (r: ListResult)
      requires limit > 0 && token != End && (token.More? ==> token.left != {})
      modifies this`clock, this`objects
      ensures Stale() <= old(Stale())
      ensures old(Safe()) ==> Safe()
      ensures r.Page? ==> r.next != FromStart && |r.items| <= limit && (r.next.More? ==> r.next.left != {})
      ensures r.Page? && token == FromStart ==> Stale() <= r.items + Left(r.next)
      ensures r.Page? && token.More? ==> token.left == r.items + Left(r.next) && Left(r.next) < token.left
    {
      Interfere();
      if !replies(clock).Success? {
        return ListError(replies(clock).Retryable?);
      }
      var whole := if token.More? then token.left else objects.Keys;
      var size := if pageSize(clock) == 0 || pageSize(clock) > limit then limit else pageSize(clock);
      var items, left := TakePage(whole, size);
      r := Page(items, if left == {} then End else More(left));
      Interfere();
    }

    static method TakePage(whole: set<Key>, size: nat) returns (items: set<Key>, left: set<Key>)
      requires size > 0
      ensures whole == items + left && |items| <= size
      ensures whole != {} ==> left < whole
    {
      hide PageOf;
      items, left := {}, whole;
      NoPage(whole);
      while left != {} && |items| < size
        invariant PageOf(whole, items, left) && |items| <= size
        invariant items == {} || left < whole
      {
        var k :| k in left;
        PageStep(whole, items, left, k);
        items, left := items + {k}, left - {k};
      }
      PageFacts(whole, items, left);
    }

    /** An empty merge patch: the server reads the object and writes it back in the storage version. */
    method Patch(k: Key) returns (r: PatchResult)
      modifies this`clock, this`objects
      ensures Stale() <= old(Stale())
      ensures old(Safe()) ==> Safe()
      ensures r.Patched? || r.NotFound? ==> k !in Stale()
    {
      Interfere();
      if k !in objects {
        r := NotFound;
      } else if replies(clock).Success? {
        objects := objects[k := storageVersion];
        r := Patched;
      } else {
        if replies(clock).applied {
          objects := objects[k := storageVersion];
        }
        r := PatchError(replies(clock).Retryable?);
      }
      Interfere();
    }

    /** The CRD is fetched and its stored versions are set to the one given. */
    method PatchStatus(version: Version) returns (r: StatusResult)
      requires version == storageVersion
      requires Stale() == {} && Safe()
      modifies this
      ensures Stale() == {} && Safe()
      ensures r.Updated? ==> storedVersions == [version]
      ensures storedVersions == [version] || storedVersions == old(storedVersions)
    {
      Interfere();
      assert forall k <- objects :: objects[k] == storageVersion by {
        assert forall k <- objects | objects[k] != storageVersion :: k in Stale();
      }
      if replies(clock).Success? {
        storedVersions := [version];
        r := Updated;
      } else {
        if replies(clock).applied {
          storedVersions := [version];
        }
        r := StatusError(replies(clock).Retryable?);
      }
      Interfere();
    }
  }

  function Left(token: Continue): set<Key> {
    if token.More? then token.left else {}
  }

  // ----------------------------------------------------------------- the migrator

  /** Which call ended a migration that failed. */
  datatype Stage = NoStorageVersion | Listing | Patching | CheckingPermission | UpdatingStatus

  datatype MigrationResult = NotNeeded | NoPermission | Completed | Failed(stage: Stage)

  const PAGE_LIMIT := 500

  predicate FirstMarked(versions: seq<(Version, bool)>, i: int) {
    0 <= i < |versions| && versions[i].1 && forall j | 0 <= j < i :: !versions[j].1
  }

  /** The first version marked as the storage version, if there is one. */
  function StorageVersionOf(versions: seq<(Version, bool)>): (r: seq<Version>)
    ensures r == [] <==> forall i | 0 <= i < |versions| :: !versions[i].1
    ensures r != [] ==> exists i :: FirstMarked(versions, i) && r == [versions[i].0]
  {
    if versions == [] then []
    else if versions[0].1 then
      assert FirstMarked(versions, 0);
      [versions[0].0]
    else
      var rest := StorageVersionOf(versions[1..]);
      assert rest != [] ==> exists i :: FirstMarked(versions[1..], i) && rest == [versions[1..][i].0];
      assert forall i :: FirstMarked(versions[1..], i) ==>
        FirstMarked(versions, i + 1) && versions[1..][i].0 == versions[i + 1].0;
      rest
  }

  /** Listing under retry. With no attempts allowed the library calls nothing and reports no error,
      which leaves the empty list it started from. */
  method ListWithRetry(c: Cluster, steps: nat, token: Continue) returns (r: ListResult)
    requires token != End && (token.More? ==> token.left != {})
    modifies c`clock, c`objects
    ensures c.Stale() <= old(c.Stale())
    ensures old(c.Safe()) ==> c.Safe()
    ensures steps == 0 ==> r == Page({}, End)
    ensures r.Page? ==> r.next != FromStart && (r.next.More? ==> r.next.left != {})
    ensures r.Page? && steps > 0 && token == FromStart ==> c.Stale() <= r.items + Left(r.next)
    ensures r.Page? && steps > 0 && token.More? ==> token.left == r.items + Left(r.next)
    ensures r.Page? && token.More? ==> Left(r.next) < token.left
  {
    r := Page({}, End);
    for i := 0 to steps
      invariant c.Stale() <= old(c.Stale())
      invariant old(c.Safe()) ==> c.Safe()
      invariant if i == 0 then r == Page({}, End) else r == ListError(true)
    {
      r := c.List(PAGE_LIMIT, token);
      if r.Page? || !r.retryable {
        return;
      }
    }
  }

  method PatchWithRetry(c: Cluster, steps: nat, k: Key) returns (r: PatchResult)
    modifies c`clock, c`objects
    ensures c.Stale() <= old(c.Stale())
    ensures old(c.Safe()) ==> c.Safe()
    ensures steps > 0 && (r.Patched? || r.NotFound?) ==> k !in c.Stale()
  {
    r := Patched;
    for i := 0 to steps
      invariant c.Stale() <= old(c.Stale())
      invariant old(c.Safe()) ==> c.Safe()
      invariant i > 0 ==> r == PatchError(true)
    {
      r := c.Patch(k);
      if !r.PatchError? || !r.retryable {
        return;
      }
    }
  }

  /** UpdateCRDStorageVersion; `called` tells whether any attempt was made. */
  method UpdateCRDStorageVersion(c: Cluster, steps: nat, version: Version) returns (r: StatusResult)
    requires version == c.storageVersion && c.Safe()
    requires steps > 0 ==> c.Stale() == {}
    modifies c
    ensures c.Safe()
    ensures steps == 0 ==> r == Updated && c.storedVersions == old(c.storedVersions)
    ensures steps > 0 ==> c.Stale() == {}
    ensures steps > 0 && r.Updated? ==> c.storedVersions == [version]
    ensures c.storedVersions == [version] || c.storedVersions == old(c.storedVersions)
  {
    r := Updated;
    for i := 0 to steps
      invariant c.Safe()
      invariant steps > 0 ==> c.Stale() == {}
      invariant if i == 0 then r == Updated && c.storedVersions == old(c.storedVersions) else r == StatusError(true)
      invariant c.storedVersions == [version] || c.storedVersions == old(c.storedVersions)
    {
      r := c.PatchStatus(version);
      if r.Updated? || !r.retryable {
        return;
      }
    }
  }

  /** migrateCRD. Whatever other clients do and however the server answers, every version an object
      is stored in stays listed; the list is narrowed only when no object is left in another version;
      and a list failure, a patch failure other than not-found, or a missing permission leaves it alone. */
  method MigrateCRD(c: Cluster, versions: seq<(Version, bool)>, steps: nat) returns (r: MigrationResult)
    requires StorageVersionOf(versions) != [] ==> StorageVersionOf(versions) == [c.storageVersion]
    requires c.Safe()
    modifies c
    ensures c.Safe()
    ensures c.storedVersions != old(c.storedVersions) ==> c.storedVersions == [c.storageVersion] && c.Stale() == {}
    ensures r in {NotNeeded, NoPermission} || (r.Failed? && r.stage != UpdatingStatus) ==>
            c.storedVersions == old(c.storedVersions)
    ensures r == NotNeeded <==> StorageVersionOf(versions) != [] &&
                                forall v <- old(c.storedVersions) :: v == c.storageVersion
    ensures r == Completed && steps > 0 ==> c.storedVersions == [c.storageVersion] && c.Stale() == {}
    ensures steps == 0 ==> c.storedVersions == old(c.storedVersions)
    ensures steps == 0 && StorageVersionOf(versions) != [] && r != NotNeeded && c.permission.Allowed? ==> r == Completed
  {
    var found := StorageVersionOf(versions);
    if found == [] {
      return Failed(NoStorageVersion);
    }
    var storageVersion := found[0];
    if forall v <- c.storedVersions :: v == storageVersion {
      return NotNeeded;
    }
    var token := FromStart;
    while token != End
      invariant c.Safe() && c.storedVersions == old(c.storedVersions)
      invariant steps > 0 && token != FromStart ==> c.Stale() <= Left(token)
      invariant token.More? ==> token.left != {}
      decreases token == FromStart, token != End, Left(token)
    {
      var page := ListWithRetry(c, steps, token);
      if page.ListError? {
        return Failed(Listing);
      }
      var todo := page.items;
      while todo != {}
        invariant todo <= page.items
        invariant c.Safe() && c.storedVersions == old(c.storedVersions)
        invariant steps > 0 ==> c.Stale() <= todo + Left(page.next)
      {
        var k :| k in todo;
        var patched := PatchWithRetry(c, steps, k);
        if patched.PatchError? {
          return Failed(Patching);
        }
        todo := todo - {k};
      }
      token := page.next;
    }
    match c.permission
    case CheckError => return Failed(CheckingPermission);
    case Denied => return NoPermission;
    case Allowed =>
      var updated := UpdateCRDStorageVersion(c, steps, storageVersion);
      r := if updated.Updated? then Completed else Failed(UpdatingStatus);
  }
}
