/** The synchronization job run to its end: publish what was downloaded and select it. */
module ModelSync {
  import opened PolicyConfig
  import opened Bundle
  import opened Publish

  datatype Synced = Selected | ManifestAbsent | Failed

  class ModelCache {
    const tools: Tools
    var dirs: map<string, Dir>
    var reference: Option<Reference>

    constructor (tools: Tools)
      ensures this.tools == tools && dirs == map[] && reference == None
    {
      this.tools, dirs, reference := tools, map[], None;
    }

    ghost function Contents(): Disk
      reads this
    {
      Disk(dirs, reference)
    }

    /** Remove a directory file by file. */
    method RemoveTree(digest: string)
      requires digest in dirs
      modifies this`dirs
      ensures dirs == old(dirs) - {digest}
    {
      while dirs[digest] != map[]
        invariant digest in dirs && dirs - {digest} == old(dirs) - {digest}
        decreases |dirs[digest]|
      {
        var path :| path in dirs[digest];
        var rest := dirs[digest] - {path};
        assert dirs[digest].Keys == rest.Keys + {path} && |rest.Keys| + 1 == |dirs[digest].Keys|;
        dirs := dirs[digest := rest];
      }
      dirs := dirs - {digest};
    }

    /** Afterwards the directory is the marked copy of the source, unless it was complete and so stayed as it was. */
    method AtomicPublish(source: Dir, digest: string)
      modifies this`dirs
      ensures dirs == if CompleteAt(tools, old(dirs), digest, None) then old(dirs)
              else old(dirs)[digest := source[MARKER := digest]]
    {
      if CompleteAt(tools, dirs, digest, None) {
        return;
      }
      if digest in dirs {
        RemoveTree(digest);
      }
      var staged := CopyTree(source);
      staged := staged[MARKER := digest];
      dirs := dirs[digest := staged];
      assert dirs == old(dirs)[digest := staged];
    }

    static method CopyTree(source: Dir) returns (staged: Dir)
      ensures staged == source
    {
      staged := map[];
      var rest := source.Keys;
      while rest != {}
        invariant rest <= source.Keys && staged.Keys == source.Keys - rest
        invariant forall p :: p in staged ==> staged[p] == source[p]
      {
        var p :| p in rest;
        staged, rest := staged[p := source[p]], rest - {p};
      }
    }

    /** The reference changes only to a directory that passes full revalidation. */
    method SelectDesired(version: string, digest: string) returns (ok: bool)
      modifies this`reference
      ensures ok <==> CompleteAt(tools, dirs, digest, Some(version))
      ensures reference == if ok then Some(Reference(version, digest)) else old(reference)
    {
      ok := CompleteAt(tools, dirs, digest, Some(version));
      if ok {
        reference := Some(Reference(version, digest));
      }
    }

    /**
     * Synchronize one pinned version from what the store offers, None when its manifest is absent.
     * Success selects a complete directory; failure leaves the reference as it was; either way the
     * reference stays valid and complete directories stay as they were.
     */
    method SyncBundle(version: string, digest: string, offered: Option<Dir>, missingManifestOk: bool)
      returns (result: Synced)
      requires ReferenceOk(tools, Contents()) && Digest(digest)
      requires offered.Some? ==> MARKER !in offered.value
      modifies this
      ensures ReferenceOk(tools, Contents()) && CompleteKept(tools, old(dirs), dirs)
      ensures result == Selected ==>
                reference == Some(Reference(version, digest)) && CompleteAt(tools, dirs, digest, Some(version))
      ensures result != Selected ==> reference == old(reference)
      ensures result == ManifestAbsent <==> offered.None? && missingManifestOk
      ensures old(CompleteAt(tools, dirs, digest, Some(version))) && !missingManifestOk ==>
                result == Selected && dirs == old(dirs)
      ensures offered.Some? && Verified(tools, offered.value, digest, Some(version))
                && !old(CompleteAt(tools, dirs, digest, None)) ==>
                result == Selected && dirs == old(dirs)[digest := offered.value[MARKER := digest]]
      ensures result == Selected <==>
                || (!missingManifestOk && old(CompleteAt(tools, dirs, digest, Some(version))))
                || (offered.Some? && Publishable(tools, old(dirs), offered.value, digest, version))
      ensures dirs == old(dirs) || (offered.Some? && dirs == old(dirs)[digest := offered.value[MARKER := digest]])
    {
      CompleteVersions(tools, dirs, digest, version);
      if !missingManifestOk && CompleteAt(tools, dirs, digest, Some(version)) {
        var kept := SelectDesired(version, digest);
        return Selected;
      }
      if offered.None? {
        return if missingManifestOk then ManifestAbsent else Failed;
      }
      result := PublishOffered(version, digest, offered.value);
    }

    method PublishOffered(version: string, digest: string, source: Dir) returns (result: Synced)
      requires ReferenceOk(tools, Contents()) && Digest(digest) && MARKER !in source
      modifies this
      ensures ReferenceOk(tools, Contents()) && CompleteKept(tools, old(dirs), dirs)
      ensures result == Selected ==>
                reference == Some(Reference(version, digest)) && CompleteAt(tools, dirs, digest, Some(version))
      ensures result != Selected ==> reference == old(reference)
      ensures result != ManifestAbsent
      ensures old(CompleteAt(tools, dirs, digest, Some(version))) && ManifestFits(tools, source, digest, version) ==>
                result == Selected
      ensures Verified(tools, source, digest, Some(version)) && !old(CompleteAt(tools, dirs, digest, None)) ==>
                result == Selected && dirs == old(dirs)[digest := source[MARKER := digest]]
      ensures result == Selected <==> Publishable(tools, old(dirs), source, digest, version)
      ensures dirs == old(dirs) || dirs == old(dirs)[digest := source[MARKER := digest]]
    {
      if !ManifestFits(tools, source, digest, version) {
        return Failed;
      }
      if CompleteAt(tools, dirs, digest, Some(version)) {
        CompleteVersions(tools, dirs, digest, version);
        var kept := SelectDesired(version, digest);
        return Selected;
      }
      if !Verified(tools, source, digest, Some(version)) {
        return Failed;
      }
      MarkedIsComplete(tools, source, digest, Some(version));
      AtomicPublish(source, digest);
      PublishKeeps(tools, old(Contents()), dirs, digest);
      var ok := SelectDesired(version, digest);
      result := if ok then Selected else Failed;
    }
  }

  /** The downloaded manifest is the pinned one; only then is anything else looked at. */
  predicate ManifestFits(tools: Tools, source: Dir, digest: string, version: string) {
    MANIFEST in source && ParseManifest(tools, source[MANIFEST], digest, Some(version)).Some?
  }

  /** The pinned manifest is offered, and its directory is complete already or the whole download verifies. */
  predicate Publishable(tools: Tools, dirs: map<string, Dir>, source: Dir, digest: string, version: string) {
    && ManifestFits(tools, source, digest, version)
    && (CompleteAt(tools, dirs, digest, Some(version))
        || (Verified(tools, source, digest, Some(version)) && !CompleteAt(tools, dirs, digest, None)))
  }

  lemma CompleteVersions(tools: Tools, dirs: map<string, Dir>, digest: string, version: string)
    ensures CompleteAt(tools, dirs, digest, Some(version)) ==> CompleteAt(tools, dirs, digest, None)
  {
    if CompleteAt(tools, dirs, digest, Some(version)) {
      AnyVersion(tools, dirs[digest], digest, version);
    }
  }

  /** Replacing a directory that is not complete disturbs neither the reference nor complete directories. */
  lemma PublishKeeps(tools: Tools, was: Disk, dirs: map<string, Dir>, digest: string)
    requires ReferenceOk(tools, was)
    requires forall d :: d in was.dirs && (d != digest || CompleteAt(tools, was.dirs, digest, None)) ==>
               d in dirs && dirs[d] == was.dirs[d]
    ensures ReferenceOk(tools, Disk(dirs, was.reference)) && CompleteKept(tools, was.dirs, dirs)
  {
    if was.reference.Some? {
      CompleteVersions(tools, was.dirs, was.reference.value.digest, was.reference.value.version);
    }
  }
}
