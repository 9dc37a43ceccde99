/** The stateless template filters `branch_query` and `hex`. */
module Filters {
  import opened Types
  import opened Hex

  const QueryPrefix: string := "?h="

  /** `branch_query`: `?h=` followed by the branch name, or the empty string. */
  function BranchQuery(branch: Option<string>): (r: string)
    ensures branch.None? <==> r == []
    ensures branch.Some? ==> |r| == |QueryPrefix| + |branch.value|
    ensures branch.Some? ==> r[..|QueryPrefix|] == QueryPrefix && r[|QueryPrefix|..] == branch.value
  {
    match branch
    case None => ""
    case Some(b) => QueryPrefix + b
  }

  /** Reads the branch back out of a query string; the partner of BranchQuery. */
  function BranchOfQuery(q: string): (r: Option<Option<string>>)
    ensures r == Some(None) <==> q == []
    ensures r.Some? && r.value.Some? ==> q == QueryPrefix + r.value.value
  {
    if q == [] then Some(None)
    else if |q| >= |QueryPrefix| && q[..|QueryPrefix|] == QueryPrefix then
      assert q == q[..|QueryPrefix|] + q[|QueryPrefix|..];
      Some(Some(q[|QueryPrefix|..]))
    else None
  }

  /** The query string determines the branch it was built from. */
  lemma {:induction false} BranchQueryRoundTrip(branch: Option<string>)
    ensures BranchOfQuery(BranchQuery(branch)) == Some(branch)
  {
    match branch
    case None =>
    case Some(b) =>
      var q := BranchQuery(branch);
      assert q[..|QueryPrefix|] == QueryPrefix && q[|QueryPrefix|..] == b;
  }

  /** Different branches (and no branch) give different query strings. */
  lemma BranchQueryInjective(a: Option<string>, b: Option<string>)
    requires BranchQuery(a) == BranchQuery(b)
    ensures a == b
  {
    BranchQueryRoundTrip(a);
    BranchQueryRoundTrip(b);
  }

  /** `hex`: the 40-character lowercase hex form of a 20-byte object id. */
  function HexFilter(s: seq<byte>): (r: string)
    requires |s| == 20
    ensures |r| == 40 && IsLowerHex(r)
    ensures forall i :: 0 <= i < 20 ==>
      r[2 * i] == HexDigit(s[i] as int / 16) && r[2 * i + 1] == HexDigit(s[i] as int % 16)
    ensures HexDecode(r) == Some(s)
  {
    DecodeEncode(s);
    forall i | 0 <= i < 20
      ensures HexEncode(s)[2 * i] == HexDigit(s[i] as int / 16)
      ensures HexEncode(s)[2 * i + 1] == HexDigit(s[i] as int % 16)
    {
      HexEncodeAt(s, i);
    }
    HexEncode(s)
  }
}
