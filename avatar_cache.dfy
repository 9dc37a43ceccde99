/**
 * The memoizing avatar-link filter `gravatar`. The process-wide cache is one
 * slot holding an immutable snapshot (a map from e-mail address to URL); a
 * miss derives the URL and publishes a copy of the snapshot with the new pair
 * inserted (read-copy-update). The model is sequential.
 */
module AvatarCache {
  import opened Types
  import opened Hex

  const AvatarPrefix: string := "https://www.gravatar.com/avatar/"

  /** The URL derived on a miss: the prefix followed by the hex of the digest. */
  function AvatarUrl(digest: Md5Digest): (r: string)
    ensures |r| == |AvatarPrefix| + 32
    ensures r[..|AvatarPrefix|] == AvatarPrefix
    ensures IsLowerHex(r[|AvatarPrefix|..])
    ensures HexDecode(r[|AvatarPrefix|..]) == Some(digest)
  {
    var r := AvatarPrefix + HexEncode(digest);
    assert r[|AvatarPrefix|..] == HexEncode(digest);
    DecodeEncode(digest);
    r
  }

  /** Distinct digests give distinct URLs. */
  lemma AvatarUrlInjective(d1: Md5Digest, d2: Md5Digest)
    requires AvatarUrl(d1) == AvatarUrl(d2)
    ensures d1 == d2
  {
  }

  /** The snapshot the RCU closure builds: a copy of `curr` with `key` mapped to `url`. */
  function Inserted(curr: map<string, string>, key: string, url: string): (r: map<string, string>)
    ensures r.Keys == curr.Keys + {key}
    ensures key in r && r[key] == url
    ensures forall k :: k in curr && k != key ==> r[k] == curr[k]
  {
    curr[key := url]
  }

  /** Inserting the same pair twice is the same as inserting it once. */
  lemma InsertedIdempotent(curr: map<string, string>, key: string, url: string)
    ensures Inserted(Inserted(curr, key, url), key, url) == Inserted(curr, key, url)
  {
  }

  /** Every entry of a snapshot is the URL derived from its key. */
  ghost predicate Coherent(snapshot: map<string, string>, md5: string -> Md5Digest) {
    forall k :: k in snapshot ==> snapshot[k] == AvatarUrl(md5(k))
  }

  /** One immutable version of the cache's contents, shared by every reader that loaded it. */
  class Snapshot {
    var entries: map<string, string>

    constructor (entries: map<string, string>)
      ensures this.entries == entries
    {
      this.entries := entries;
    }

    /** `r.insert(key, url)` on a private clone. */
    method Insert(key: string, url: string)
      modifies this
      ensures entries == Inserted(old(entries), key, url)
    {
      entries := Inserted(entries, key, url);
    }
  }

  class Cache {
    /** The slot: the snapshot currently installed. */
    var slot: Snapshot
    /** MD5 (RFC 1321), supplied from outside. */
    const md5: string -> Md5Digest
    /** How many times a URL has been derived (instrumentation only). */
    ghost var derivations: nat

    ghost predicate Valid()
      reads this, slot
    {
      Coherent(slot.entries, md5)
    }

    /** The lazily initialised slot starts with an empty snapshot. */
    constructor (md5: string -> Md5Digest)
      ensures Valid() && fresh(slot)
      ensures slot.entries == map[] && this.md5 == md5 && derivations == 0
    {
      slot := new Snapshot(map[]);
      this.md5 := md5;
      derivations := 0;
    }

    /** `CACHE.load().get(email).copied()`: the value stored in the current snapshot, if any. */
    method Lookup(email: string) returns (hit: Option<string>)
      ensures hit.Some? <==> email in slot.entries
      ensures hit.Some? ==> hit.value == slot.entries[email]
    {
      var curr := slot;
      hit := if email in curr.entries then Some(curr.entries[email]) else None;
    }

    /**
     * `CACHE.rcu(..)` with the pair derived by `gravatar`: clone the current
     * snapshot, insert the pair into the clone, install the clone. The
     * snapshot that was installed before is left as it was.
     */
    method Publish(key: string, url: string)
      requires Valid() && url == AvatarUrl(md5(key))
      modifies this`slot
      ensures Valid() && fresh(slot)
      ensures slot.entries == Inserted(old(slot.entries), key, url)
      ensures old(slot).entries == old(slot.entries)
    {
      var curr := slot;
      var r := new Snapshot(curr.entries);
      r.Insert(key, url);
      slot := r;
    }

    /** `gravatar(email)`. */
    method Resolve(email: string) returns (url: string)
      requires Valid()
      modifies this
      ensures Valid()
      ensures url == AvatarUrl(md5(email))
      ensures email in slot.entries && slot.entries[email] == url
      ensures old(slot).entries == old(slot.entries)
      ensures email in old(slot.entries) ==>
        url == old(slot.entries)[email] && slot == old(slot) && derivations == old(derivations)
      ensures email !in old(slot.entries) ==>
        fresh(slot) && slot.entries == Inserted(old(slot.entries), email, url) &&
        derivations == old(derivations) + 1
    {
      var hit := Lookup(email);
      if hit.Some? {
        return hit.value;
      }
      url := AvatarUrl(md5(email));
      derivations := derivations + 1;
      Publish(email, url);
    }
  }

  /** A second lookup of the same address returns the same URL and derives nothing. */
  method ResolveTwice(c: Cache, email: string) returns (first: string, second: string)
    requires c.Valid()
    modifies c
    ensures first == second && first == AvatarUrl(c.md5(email))
    ensures c.derivations == old(c.derivations) + (if email in old(c.slot.entries) then 0 else 1)
  {
    first := c.Resolve(email);
    second := c.Resolve(email);
  }

  /** A snapshot loaded before a miss still has its old contents afterwards. */
  method HeldSnapshotUnchanged(c: Cache, email: string) returns (held: Snapshot)
    requires c.Valid()
    modifies c
    ensures held == old(c.slot) && held.entries == old(c.slot.entries)
    ensures email !in held.entries ==>
      c.slot != held && email in c.slot.entries && held.entries.Keys < c.slot.entries.Keys
  {
    held := c.slot;
    var _ := c.Resolve(email);
  }
}
