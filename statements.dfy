/**
 * The names of the five prepared statements of one cache instance:
 * "postgres_cache_" + the instance's random identifier + "_" + the operation.
 */
module Statements {

  datatype Statement = ReadStatement | WriteStatement | ExistsStatement | DeleteStatement | ClearStatement

  const Prefix: string := "postgres_cache_"

  function Suffix(s: Statement): (r: string)
    ensures |r| >= 5 && r[0] == '_'
  {
    match s
    case ReadStatement => "_read"
    case WriteStatement => "_write"
    case ExistsStatement => "_exists"
    case DeleteStatement => "_delete"
    case ClearStatement => "_clear"
  }

  function StatementName(identifier: string, s: Statement): (name: string)
    ensures |name| == |Prefix| + |identifier| + |Suffix(s)| && name[..|Prefix|] == Prefix
  {
    Prefix + identifier + Suffix(s)
  }

  /** The last three letters of every suffix differ. */
  lemma SuffixEndsDiffer(s: Statement, t: Statement)
    ensures Suffix(s)[|Suffix(s)| - 3..] == Suffix(t)[|Suffix(t)| - 3..] <==> s == t
  {
  }

  /**
   * A statement name determines both the instance identifier and the
   * statement: the five names of one instance are distinct, and two
   * instances with different identifiers share no name.
   */
  lemma StatementNameInjective(id1: string, s1: Statement, id2: string, s2: Statement)
    ensures StatementName(id1, s1) == StatementName(id2, s2) <==> id1 == id2 && s1 == s2
  {
    var n1, n2 := StatementName(id1, s1), StatementName(id2, s2);
    if n1 == n2 {
      var x1, x2 := Suffix(s1), Suffix(s2);
      assert n1[|n1| - 3..] == x1[|x1| - 3..];
      assert n2[|n2| - 3..] == x2[|x2| - 3..];
      SuffixEndsDiffer(s1, s2);
      assert n1[|Prefix|..|n1| - |x1|] == id1;
      assert n2[|Prefix|..|n2| - |x2|] == id2;
    }
  }
}
