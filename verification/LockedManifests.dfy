/** What an activation lock says about the manifests it was exported from. */
module LockedManifests {
  import opened Scopes
  import opened Versions
  import opened Cycles
  import opened Registry
  import opened Json
  import opened ActivationLock

  /** A text is listed exactly when it is the revision of an active capability, other than `c`, that
      `c` depends on directly or through others. */
  ghost predicate ListsDependencies(manifests: map<string, Manifest>, c: string, texts: seq<string>) {
    && Ascending(texts)
    && forall t :: t in texts <==>
         exists b :: b in manifests && b != c && Reaches(Declared(manifests), c, b)
                     && manifests[b].identity.Revision() == t
  }

  /** The entry names what is active there: revision, content, provider and source, and in order the
      revisions it depends on. */
  ghost predicate Describes(manifests: map<string, Manifest>, c: string, entry: Json)
    requires c in manifests
  {
    && entry.Obj?
    && entry.fields.Keys == {"revision", "digest", "provider", "source", "dependencyClosure"}
    && entry.fields["revision"] == Str(manifests[c].identity.Revision())
    && entry.fields["digest"] == Str(manifests[c].identity.digest)
    && entry.fields["provider"] == Str(manifests[c].provider)
    && entry.fields["source"] == Str(manifests[c].source)
    && entry.fields["dependencyClosure"].Arr? && AllStrings(entry.fields["dependencyClosure"].items)
    && ListsDependencies(manifests, c, TextsOf(entry.fields["dependencyClosure"].items))
  }

  lemma {:induction false} ClosureLists(manifests: map<string, Manifest>, c: string)
    ensures ListsDependencies(manifests, c, ClosureRevisions(manifests, c))
  {
    hide Reaches, Declared, Ascending;
    var revisions := set b | b in ClosureOf(manifests, c) :: manifests[b].identity.Revision();
    ListedIs(revisions);
    hide Listed;
    forall t ensures t in revisions <==>
      exists b :: b in manifests && b != c && Reaches(Declared(manifests), c, b)
                  && manifests[b].identity.Revision() == t
    {
      if b :| b in manifests && b != c && Reaches(Declared(manifests), c, b)
              && manifests[b].identity.Revision() == t
      {
        assert b in ClosureOf(manifests, c);
      }
    }
  }

  lemma {:induction false} EntryDescribes(manifests: map<string, Manifest>, c: string)
    requires c in manifests
    ensures Describes(manifests, c, EntryOf(manifests[c], ClosureRevisions(manifests, c)))
  {
    hide ListsDependencies, ClosureRevisions;
    ClosureLists(manifests, c);
    assert TextsOf(Strings(ClosureRevisions(manifests, c))) == ClosureRevisions(manifests, c);
  }

  /** The lock describes exactly the active capabilities, and is signed over all of that. */
  lemma {:induction false} LockDescribesActive(digest: Digest, manifests: map<string, Manifest>)
    ensures var lock := Exported(digest, manifests);
      && lock.Obj? && lock.fields.Keys == {"apiVersion", "kind", "capabilities", "lockDigest"}
      && lock.fields["apiVersion"] == Str("capabilityhub.io/v1alpha1")
      && lock.fields["kind"] == Str("CapabilityActivationLock")
      && lock.fields["lockDigest"] == Str(digest(Obj(lock.fields - {"lockDigest"})))
      && lock.fields["capabilities"].Obj? && lock.fields["capabilities"].fields.Keys == manifests.Keys
      && forall c :: c in manifests ==> Describes(manifests, c, lock.fields["capabilities"].fields[c])
  {
    hide Describes, EntryOf, ClosureRevisions;
    var lock := Exported(digest, manifests);
    var capabilities := Capabilities(manifests);
    forall c | c in manifests ensures Describes(manifests, c, capabilities[c]) {
      EntryDescribes(manifests, c);
    }
    assert Signed(capabilities, digest(Unsigned(capabilities))).fields - {"lockDigest"}
        == Unsigned(capabilities).fields;
  }

  /** What pins a capability down. */
  predicate SameRelease(m: Manifest, n: Manifest) {
    m.identity.Revision() == n.identity.Revision() && m.identity.digest == n.identity.digest
    && m.provider == n.provider && m.source == n.source
  }

  /** Two active sets with the same lock hold the same capabilities, in the same revisions with the same
      content, from the same providers and sources. */
  lemma {:induction false} SameLockSameReleases(digest: Digest, a: map<string, Manifest>, b: map<string, Manifest>)
    requires Exported(digest, a) == Exported(digest, b)
    ensures a.Keys == b.Keys && forall c :: c in a ==> SameRelease(a[c], b[c])
  {
    hide Exported, ListsDependencies;
    LockDescribesActive(digest, a);
    LockDescribesActive(digest, b);
    var entries := Exported(digest, a).fields["capabilities"].fields;
    assert a.Keys == entries.Keys == b.Keys;
    forall c | c in a ensures SameRelease(a[c], b[c]) {
      assert Describes(a, c, entries[c]) && Describes(b, c, entries[c]);
    }
  }
}
