/** Publishing release assets to a remote that may fail at any operation, over any number of retries. */
module ReleasePublishing {
  import opened Outcomes

  datatype Asset = Asset(name: string, content: string)

  type Remote = map<string, string>

  /** Each remote operation works, breaks before it takes effect, or breaks after. */
  datatype Fate = Works | BreaksBefore | BreaksAfter

  datatype Error = RemoteFailed | Conflicts(name: string)

  // ---------------------------------------------------------------- what a run is about

  function Existing(remote: Remote, local: seq<Asset>): seq<Asset> {
    if local == [] then []
    else (if local[0].name in remote then [local[0]] else []) + Existing(remote, local[1..])
  }

  function Missing(remote: Remote, local: seq<Asset>): seq<Asset> {
    if local == [] then []
    else (if local[0].name in remote then [] else [local[0]]) + Missing(remote, local[1..])
  }

  function Names(assets: seq<Asset>): (r: seq<string>)
    ensures |r| == |assets| && forall i :: 0 <= i < |r| ==> r[i] == assets[i].name
  {
    seq(|assets|, i requires 0 <= i < |assets| => assets[i].name)
  }

  ghost predicate Differs(remote: Remote, a: Asset) { a.name in remote && remote[a.name] != a.content }

  ghost predicate Conflict(remote: Remote, local: seq<Asset>) {
    exists i :: 0 <= i < |local| && Differs(remote, local[i])
  }

  ghost predicate Present(remote: Remote, local: seq<Asset>) {
    forall i :: 0 <= i < |local| ==> local[i].name in remote && remote[local[i].name] == local[i].content
  }

  ghost predicate Distinct(assets: seq<Asset>) {
    forall i, j :: 0 <= i < j < |assets| ==> assets[i].name != assets[j].name
  }

  /**
   What keeps a run from uploading: different content, or a name listed twice that it would have to download
   twice into one directory, unless downloads overwrite files.
   */
  ghost predicate Blocked(overwrites: bool, remote: Remote, local: seq<Asset>) {
    Conflict(remote, local) || (!overwrites && !Distinct(Existing(remote, local)))
  }

  /** Nothing that was there has changed. */
  ghost predicate Keeps(before: Remote, after: Remote) {
    forall name :: name in before ==> name in after && after[name] == before[name]
  }

  /** The remote after the first k uploads. */
  function Uploaded(remote: Remote, missing: seq<Asset>, k: nat): Remote
    requires k <= |missing|
  {
    if k == 0 then remote else Uploaded(remote, missing, k - 1)[missing[k - 1].name := missing[k - 1].content]
  }

  /** Uploads of new names only, so that none replaces another. */
  ghost predicate FreshUploads(remote: Remote, missing: seq<Asset>, k: nat)
    requires k <= |missing|
  {
    && (forall i :: 0 <= i < k ==> missing[i].name !in remote)
    && (forall i, j :: 0 <= i < j < k ==> missing[i].name != missing[j].name)
  }

  /** After the first k uploads, all of them of new names. */
  ghost predicate GetsTo(before: Remote, after: Remote, missing: seq<Asset>, k: nat) {
    k <= |missing| && FreshUploads(before, missing, k) && after == Uploaded(before, missing, k)
  }

  /** How a run may change the remote, and what it may report. */
  ghost predicate Ran(overwrites: bool, before: Remote, after: Remote, local: seq<Asset>, r: Result<seq<string>, Error>) {
    var missing := Missing(before, local);
    exists k: nat :: GetsTo(before, after, missing, k)
      && (Blocked(overwrites, before, local) ==> k == 0 && r.Err?)
      && (r.Ok? ==> k == |missing| && r.value == Names(missing))
      && (r.Err? && r.error.Conflicts? ==> Conflict(before, local))
  }

  /**
   A run in which no operation breaks: it changes nothing if it is blocked; otherwise it uploads one
   asset after the other, up to the first whose name the remote has by then.
   */
  ghost predicate Undisturbed(overwrites: bool, before: Remote, after: Remote, local: seq<Asset>, r: Result<seq<string>, Error>) {
    if Blocked(overwrites, before, local) then
      && after == before && r.Err?
      && (r.error.Conflicts? ==> Conflict(before, local)) && (overwrites ==> r.error.Conflicts?)
    else
      var missing := Missing(before, local);
      exists k: nat :: GetsTo(before, after, missing, k)
        && if k == |missing| then r == Ok(Names(missing)) else missing[k].name in after && r == Err(RemoteFailed)
  }

  // ---------------------------------------------------------------- the remote and the publisher

  class Client {
    const fate: nat -> Fate
    /** Downloading a file that the directory has already works. */
    const overwrites: bool
    var release: bool
    var assets: Remote
    var ops: nat

    ghost predicate Valid()
      reads this
    {
      !release ==> assets == map[]
    }

    constructor (fate: nat -> Fate, overwrites: bool)
      ensures Valid() && this.fate == fate && this.overwrites == overwrites && assets == map[]
    {
      this.fate, this.overwrites := fate, overwrites;
      release, assets, ops := false, map[], 0;
    }

    /** The fate of the next operation. */
    method Next() returns (f: Fate)
      modifies this`ops
      ensures f == fate(old(ops)) && ops == old(ops) + 1
    {
      f := fate(ops);
      ops := ops + 1;
    }

    method EnsureRelease() returns (ok: bool)
      requires Valid()
      modifies this`ops, this`release
      ensures Valid() && ops >= old(ops)
      ensures ok ==> release
      ensures (forall k :: k >= old(ops) ==> fate(k).Works?) ==> ok
    {
      var view := Next();
      if !view.Works? { return false; }
      if release { return true; }
      var create := Next();
      release := !create.BreaksBefore?;
      ok := create.Works?;
    }

    method AssetNames() returns (names: Option<set<string>>)
      modifies this`ops
      ensures ops >= old(ops) && (names.Some? ==> names.value == assets.Keys)
      ensures (forall k :: k >= old(ops) ==> fate(k).Works?) ==> names.Some?
    {
      var f := Next();
      names := if f.Works? then Some(assets.Keys) else None;
    }

    method DownloadAsset(name: string, directory: set<string>) returns (content: Option<string>)
      requires name in assets
      modifies this`ops
      ensures ops >= old(ops) && (content.Some? ==> content.value == assets[name] && (overwrites || name !in directory))
      ensures (forall k :: k >= old(ops) ==> fate(k).Works?) ==> (content.Some? <==> overwrites || name !in directory)
    {
      var f := Next();
      content := if f.Works? && (overwrites || name !in directory) then Some(assets[name]) else None;
    }

    /** The remote refuses a name it already has. */
    method UploadAsset(a: Asset) returns (ok: bool)
      requires Valid() && release
      modifies this`ops, this`assets
      ensures ops >= old(ops)
      ensures assets == old(assets) || (a.name !in old(assets) && assets == old(assets)[a.name := a.content])
      ensures ok ==> a.name !in old(assets) && assets == old(assets)[a.name := a.content]
      ensures (forall k :: k >= old(ops) ==> fate(k).Works?) ==> (ok <==> a.name !in old(assets))
    {
      var f := Next();
      if f.BreaksBefore? || a.name in assets { return false; }
      assets := assets[a.name := a.content];
      ok := f.Works?;
    }

    method CompareExisting(existing: seq<Asset>) returns (error: Option<Error>)
      requires forall i :: 0 <= i < |existing| ==> existing[i].name in assets
      modifies this`ops
      ensures ops >= old(ops)
      ensures error.None? ==> !Conflict(assets, existing) && (overwrites || Distinct(existing))
      ensures error.Some? && error.value.Conflicts? ==> Conflict(assets, existing)
      ensures (forall k :: k >= old(ops) ==> fate(k).Works?) ==>
                if Conflict(assets, existing) || !(overwrites || Distinct(existing)) then
                  error.Some? && (overwrites ==> error.value.Conflicts?)
                else error.None?
    {
      var directory: set<string> := {};
      for i := 0 to |existing|
        invariant ops >= old(ops)
        invariant forall j :: 0 <= j < i ==> !Differs(assets, existing[j])
        invariant forall name :: name in directory <==> exists j :: 0 <= j < i && existing[j].name == name
        invariant overwrites || forall j, k :: 0 <= j < k < i ==> existing[j].name != existing[k].name
      {
        var content := DownloadAsset(existing[i].name, directory);
        if content.None? { return Some(RemoteFailed); }
        directory := directory + {existing[i].name};
        if content.value != existing[i].content {
          assert Differs(assets, existing[i]);
          return Some(Conflicts(existing[i].name));
        }
      }
      error := None;
    }

    method UploadMissing(missing: seq<Asset>) returns (ok: bool, ghost k: nat)
      requires Valid() && release
      requires forall i :: 0 <= i < |missing| ==> missing[i].name !in assets
      modifies this`ops, this`assets
      ensures Valid()
      ensures GetsTo(old(assets), assets, missing, k)
      ensures ok ==> k == |missing|
      ensures (forall n :: n >= old(ops) ==> fate(n).Works?) ==>
                if k == |missing| then ok else missing[k].name in assets && !ok
    {
      hide Distinct;
      k := 0;
      assert assets == Uploaded(assets, missing, 0) && FreshUploads(assets, missing, 0);
      hide FreshUploads;
      hide Uploaded;
      for i := 0 to |missing|
        invariant ops >= old(ops) && k == i
        invariant FreshUploads(old(assets), missing, i) && assets == Uploaded(old(assets), missing, i)
      {
        UploadStep(old(assets), missing, i);
        var sent := UploadAsset(missing[i]);
        if !sent {
          if assets != Uploaded(old(assets), missing, i) { k := i + 1; }
          return false, k;
        }
        k := i + 1;
      }
      AllFresh(old(assets), missing);
      ok := true;
    }

    method Publish(local: seq<Asset>) returns (r: Result<seq<string>, Error>)
      requires Valid()
      modifies this
      ensures Valid() && Ran(overwrites, old(assets), assets, local, r)
      ensures (forall n :: n >= old(ops) ==> fate(n).Works?) ==> Undisturbed(overwrites, old(assets), assets, local, r)
    {
      hide Distinct;
      ghost var before := assets;
      var missing := Missing(assets, local);
      SplitMeans(assets, local);
      assert GetsTo(before, assets, missing, 0);
      hide FreshUploads;
      hide Uploaded;
      hide Conflict;
      var found := EnsureRelease();
      if !found { return Err(RemoteFailed); }
      var names := AssetNames();
      if names.None? { return Err(RemoteFailed); }
      var existing := Existing(assets, local);
      var error := CompareExisting(existing);
      if error.Some? { return Err(error.value); }
      var sent, k := UploadMissing(missing);
      assert GetsTo(before, assets, missing, k);
      r := if sent then Ok(Names(missing)) else Err(RemoteFailed);
    }
  }

  // ---------------------------------------------------------------- lemmas on uploads and the split

  lemma UploadStep(remote: Remote, missing: seq<Asset>, k: nat)
    requires k < |missing| && FreshUploads(remote, missing, k) && missing[k].name !in remote
    ensures Uploaded(remote, missing, k + 1) == Uploaded(remote, missing, k)[missing[k].name := missing[k].content]
    ensures missing[k].name in Uploaded(remote, missing, k) ==> !Distinct(missing)
    ensures missing[k].name !in Uploaded(remote, missing, k) ==> FreshUploads(remote, missing, k + 1)
  {
    UploadedKeys(remote, missing, k);
  }

  lemma AllFresh(remote: Remote, missing: seq<Asset>)
    requires FreshUploads(remote, missing, |missing|)
    ensures Distinct(missing)
  {}

  lemma {:induction false} UploadedKeys(remote: Remote, missing: seq<Asset>, k: nat)
    requires k <= |missing|
    ensures forall name :: name in Uploaded(remote, missing, k) <==>
              name in remote || exists i :: 0 <= i < k && missing[i].name == name
  {
    if k > 0 { UploadedKeys(remote, missing, k - 1); }
  }

  /** Existing and missing assets are the local ones whose names the remote has and has not; conflicts are among the existing. */
  lemma {:induction false} SplitMeans(remote: Remote, local: seq<Asset>)
    ensures forall i :: 0 <= i < |Existing(remote, local)| ==>
              Existing(remote, local)[i].name in remote && Existing(remote, local)[i] in local
    ensures forall i :: 0 <= i < |Missing(remote, local)| ==>
              Missing(remote, local)[i].name !in remote && Missing(remote, local)[i] in local
    ensures forall a :: a in local ==> a in Existing(remote, local) || a in Missing(remote, local)
    ensures Conflict(remote, Existing(remote, local)) <==> Conflict(remote, local)
  {
    if local != [] {
      SplitMeans(remote, local[1..]);
      assert local == [local[0]] + local[1..];
      ConflictSplits(remote, local);
    }
  }

  lemma ConflictSplits(remote: Remote, local: seq<Asset>)
    requires local != []
    ensures Conflict(remote, local) <==> Differs(remote, local[0]) || Conflict(remote, local[1..])
    ensures var head := if local[0].name in remote then [local[0]] else [];
            Conflict(remote, head + Existing(remote, local[1..])) <==>
              Differs(remote, local[0]) || Conflict(remote, Existing(remote, local[1..]))
  {
    var rest := Existing(remote, local[1..]);
    var head := if local[0].name in remote then [local[0]] else [];
    if i :| 0 <= i < |local[1..]| && Differs(remote, local[1..][i]) {
      assert Differs(remote, local[i + 1]);
    }
    if i :| 0 <= i < |rest| && Differs(remote, rest[i]) {
      assert Differs(remote, (head + rest)[i + |head|]);
    }
    if Differs(remote, local[0]) {
      assert Differs(remote, (head + rest)[0]);
    }
  }
}
