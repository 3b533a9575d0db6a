/** A row of a Source database as Findings cite it. Components build map keys by joining the texts
    of a row with NUL, and what they look up by such a key is what they mean only if the texts can be
    read off it again. */
module SourceRows {

  datatype Row = Row(
    entryId: string, sourceId: string, ordinal: nat, path: string, database: string, table: string, rowId: string)

  const NUL := 0 as char

  predicate NulFree(s: string) { NUL !in s }

  /** A first part without NUL can be read off the joined text. */
  lemma SplitAtNul(a: string, b: string, x: string, y: string)
    requires NulFree(a) && NulFree(b) && a + [NUL] + x == b + [NUL] + y
    ensures a == b && x == y
  {
    var s, t := a + [NUL] + x, b + [NUL] + y;
    assert s[|a|] == NUL && t[|b|] == NUL;
    assert forall i :: 0 <= i < |a| ==> s[i] == a[i] && a[i] in a;
    assert forall i :: 0 <= i < |b| ==> t[i] == b[i] && b[i] in b;
    assert |a| == |b|;
    assert s[..|a|] == a && t[..|a|] == b;
    assert s[|a| + 1..] == x && t[|a| + 1..] == y;
  }
}
