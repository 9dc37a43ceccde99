# rgit template filters: avatar cache, branch query and hex

A Dafny model of the template filters in `src/methods/filters.rs` of rgit, a
web front end for browsing git repositories. Three filters are modelled:

- `gravatar(email)`: a memoizing filter that maps an e-mail address to a
  Gravatar avatar URL. The process-wide cache is a slot holding an immutable
  snapshot (a map from address to URL). A lookup reads the current snapshot.
  On a hit it returns the stored URL. On a miss it derives
  `https://www.gravatar.com/avatar/` followed by the lowercase hex of the
  address's MD5 digest. It then publishes a copy of the snapshot with the new
  pair inserted (read-copy-update) and returns the URL. The model is the class
  `AvatarCache.Cache`. Its field `slot` refers to the installed
  `AvatarCache.Snapshot`, an object holding the `entries` map. `Lookup` reads
  the installed snapshot. `Publish` allocates a clone, inserts into the clone
  and installs it, leaving the old snapshot object untouched. `Resolve` ties
  the two together; the model is sequential.
  The class invariant `Valid()` says every stored URL is the one derived from
  its key. A ghost counter `derivations` records how often a URL was derived.
- `branch_query(branch)`: `?h=` followed by the branch name, or the empty
  string when there is no branch (`Filters.BranchQuery`).
- `hex(oid)`: the 40-character lowercase hex form of a 20-byte object id
  (`Filters.HexFilter`). It is built on `Hex.HexEncode`, the lowercase base16
  encoding of section 8 of RFC 4648, which the avatar URL uses as well.
  `Hex.HexDecode` is its inverse, so that the round trip can be stated.

MD5 (RFC 1321) is not part of this model. The cache takes it as a
constructor parameter `md5: string -> Md5Digest`, where `Md5Digest` is a
sequence of exactly 16 bytes.

Files: `types.dfy` (bytes, `Option`, the digest type), `hex.dfy`,
`filters.dfy`, `avatar_cache.dfy`.

## Model

| member | source | states |
|---|---|---|
| Hex.HexDigit | src/methods/filters.rs:52-56 | the digit for nibble `n` is character `n` of the alphabet `0123456789abcdef`, a decimal digit exactly when `n` is below 10 |
| Hex.DigitValue | src/methods/filters.rs:52-56 | the value of a lowercase hex digit is below 16 and HexDigit maps it back to the same digit |
| Hex.HexEncode | src/methods/filters.rs:52-56 | the encoding is twice as long as the input and consists of lowercase hex digits only |
| Hex.HexEncodeAt | src/methods/filters.rs:52-56 | characters `2i` and `2i+1` of the encoding are the digits of the high and the low nibble of byte `i` |
| Hex.HexDecode | src/methods/filters.rs:52-56 | decoding succeeds exactly on even-length lowercase hex strings and yields half as many bytes |
| Hex.DecodeEncode | src/methods/filters.rs:52-56 | decoding the encoding of any byte string gives back that byte string |
| Hex.EncodeDecode | src/methods/filters.rs:52-56 | every string the decoder accepts is the encoding of what it decodes to, so the encoding is onto even-length lowercase hex |
| Hex.HexEncodeInjective | src/methods/filters.rs:52-56 | two byte strings with the same encoding are equal |
| Filters.BranchQuery | src/methods/filters.rs:27-33 | no branch gives the empty string and only then; a branch `b` gives `?h=` followed by `b` unchanged |
| Filters.BranchOfQuery | src/methods/filters.rs:27-33 | reading a query back: the empty string means no branch, and a recovered branch `b` means the query was `?h=` followed by `b` |
| Filters.BranchQueryRoundTrip | src/methods/filters.rs:27-33 | reading back the query of any branch or of no branch recovers it |
| Filters.BranchQueryInjective | src/methods/filters.rs:27-33 | different branches, and no branch, give different query strings |
| Filters.HexFilter | src/methods/filters.rs:52-56 | the hex of a 20-byte id is 40 lowercase hex characters, positions `2i, 2i+1` encode byte `i` high nibble first, and it decodes back to the id |
| AvatarCache.AvatarUrl | src/methods/filters.rs:66-69 | the derived URL is the Gravatar prefix followed by exactly 32 lowercase hex characters that decode to the digest |
| AvatarCache.AvatarUrlInjective | src/methods/filters.rs:66-69 | different digests give different URLs |
| AvatarCache.Inserted | src/methods/filters.rs:73-77 | the new snapshot has the old keys plus the new key, maps the new key to the new URL, and keeps every other entry |
| AvatarCache.Snapshot.constructor | src/methods/filters.rs:74 | the clone holds exactly the entries it was made from |
| AvatarCache.Snapshot.Insert | src/methods/filters.rs:75 | inserting into a snapshot object leaves it holding the previous entries with the pair inserted |
| AvatarCache.InsertedIdempotent | src/methods/filters.rs:73-77 | inserting the same pair twice gives the same snapshot as inserting it once |
| AvatarCache.Cache.constructor | src/methods/filters.rs:59-60 | the cache starts with a fresh, empty snapshot, no derivations, and satisfies its invariant |
| AvatarCache.Cache.Lookup | src/methods/filters.rs:62 | the lookup hits exactly when the address is in the installed snapshot and then returns the stored URL |
| AvatarCache.Cache.Publish | src/methods/filters.rs:73-77 | given the URL derived for the key, the installed snapshot is a fresh object holding the previous entries with the pair inserted, the previously installed snapshot object keeps its entries, and the invariant is kept |
| AvatarCache.Cache.Resolve | src/methods/filters.rs:58-80 | the result is always the URL derived from the address, and afterwards the installed snapshot maps the address to it; on a hit it returns the stored URL and changes neither the slot nor the derivation count; on a miss it derives once and installs a fresh snapshot holding the old entries plus the new pair; the old snapshot object is never modified; the invariant is kept |
| AvatarCache.ResolveTwice | src/methods/filters.rs:62-79 | two calls with the same address return the same derived URL, and the derivation count grows by one if the address was absent before the first call and by zero otherwise, so the second call never derives |
| AvatarCache.HeldSnapshotUnchanged | src/methods/filters.rs:73-76 | a reader holding the snapshot object loaded before a call still sees its old entries; after a miss a different snapshot object is installed, with strictly more keys |

## Left out

- Concurrency: the atomic `ArcSwap` slot, the retry loop of `rcu` and the lazy `LazyLock` initialisation (src/methods/filters.rs:59-60, 73) are modelled as one sequential object. Two racing misses for the same key are not modelled.
- `Box::leak` and `String::leak` (src/methods/filters.rs:70-71) only give the strings a `'static` lifetime; they have no observable effect beyond the returned string.
- MD5 (`md5::compute`, src/methods/filters.rs:68) is a parameter of the cache, not a definition, because its crate is not part of this model.
- `const_hex` is not part of this model; `Hex.HexEncode` is the encoding it documents, lowercase and high nibble first.
- HexFilter, Cache.Resolve: return a plain string instead of `Result<_, askama::Error>`, because both functions in the source only ever return `Ok`. The cache code has no failure path on a miss, so none is modelled.
- `DisplayHexBuffer` and its `Display` impl (src/methods/filters.rs:44-50) are formatting glue; the model returns the buffer's string directly.
- `format_time` (src/methods/filters.rs:18-25): a call into the `time` crate's RFC 3339 formatter, which is not part of this model.
- `timeago` (src/methods/filters.rs:35-38): reads the wall clock and calls the `timeago` crate, which is not part of this model.
- `file_perms` (src/methods/filters.rs:40-42): a call to `unix_mode::to_string`, which is not part of this model.
- The `Timestamp` conversions (src/methods/filters.rs:82-118): each is a call into the `time` crate, which is not part of this model. The by-value and by-reference tuple conversions (lines 94-112) have identical bodies.
