/**
 * The two pieces of query semantics the services rely on: a `where` clause
 * that selects the rows of a table satisfying a condition, in table order,
 * and the SQL `like` operator used by the user lookup.
 */
module Query {

  /**
   * The positions of the rows of `s` that satisfy `p`, in increasing order:
   * the list a `from T where p` query returns, given as indices into the table.
   */
  function IndicesWhere<T>(s: seq<T>, p: T -> bool): (r: seq<nat>)
    ensures forall k :: 0 <= k < |r| ==> r[k] < |s| && p(s[r[k]])
    ensures forall i :: 0 <= i < |s| && p(s[i]) ==> i in r
    ensures forall j, k :: 0 <= j < k < |r| ==> r[j] < r[k]
    decreases |s|
  {
    if |s| == 0 then []
    else
      var earlier := IndicesWhere(s[..|s| - 1], p);
      if p(s[|s| - 1]) then earlier + [|s| - 1] else earlier
  }

  /** No row satisfies the condition exactly when the query returns no row. */
  lemma NoneSelected<T>(s: seq<T>, p: T -> bool)
    ensures |IndicesWhere(s, p)| == 0 <==> forall i :: 0 <= i < |s| ==> !p(s[i])
  {
    var r := IndicesWhere(s, p);
    if |r| > 0 {
      assert p(s[r[0]]);
    }
  }

  /** Two distinct rows satisfy the condition exactly when the query returns more than one row. */
  lemma SeveralSelected<T>(s: seq<T>, p: T -> bool)
    ensures |IndicesWhere(s, p)| > 1 <==> exists i, j :: 0 <= i < j < |s| && p(s[i]) && p(s[j])
  {
    var r := IndicesWhere(s, p);
    if |r| > 1 {
      assert r[0] < r[1] && p(s[r[0]]) && p(s[r[1]]);
    }
    if exists i, j :: 0 <= i < j < |s| && p(s[i]) && p(s[j]) {
      var i, j :| 0 <= i < j < |s| && p(s[i]) && p(s[j]);
      TwoSelected(s, p, i, j);
    }
  }

  /** Two distinct satisfying rows are two distinct rows of the result. */
  lemma TwoSelected<T>(s: seq<T>, p: T -> bool, i: nat, j: nat)
    requires i < j < |s| && p(s[i]) && p(s[j])
    ensures |IndicesWhere(s, p)| > 1
  {
    var r := IndicesWhere(s, p);
    assert i in r && j in r;
    var ki :| 0 <= ki < |r| && r[ki] == i;
    var kj :| 0 <= kj < |r| && r[kj] == j;
    assert ki != kj;
  }

  /** When exactly one row is returned, it is the only row satisfying the condition. */
  lemma OneSelected<T>(s: seq<T>, p: T -> bool)
    requires |IndicesWhere(s, p)| == 1
    ensures IndicesWhere(s, p)[0] < |s| && p(s[IndicesWhere(s, p)[0]])
    ensures forall i :: 0 <= i < |s| && p(s[i]) ==> i == IndicesWhere(s, p)[0]
  {
  }

  /** A pattern character with a special meaning to `like`. */
  predicate IsWildcard(c: char) {
    c == '%' || c == '_'
  }

  /**
   * SQL `value like pattern`, with no escape character and case-sensitive
   * comparison: `%` stands for any run of characters (possibly none), `_` for
   * exactly one character, and every other character for itself.
   */
  predicate Like(value: string, pattern: string)
    ensures Like(value, pattern) && '%' !in pattern ==> |value| == |pattern|
    decreases |value| + |pattern|
  {
    if |pattern| == 0 then |value| == 0
    else if pattern[0] == '%' then
      Like(value, pattern[1..]) || (|value| > 0 && Like(value[1..], pattern))
    else
      |value| > 0 && (pattern[0] == '_' || pattern[0] == value[0]) && Like(value[1..], pattern[1..])
  }

  /** A pattern without wildcards matches exactly the value equal to it. */
  lemma {:induction false} LikeWithoutWildcardsIsEquality(value: string, pattern: string)
    requires forall k :: 0 <= k < |pattern| ==> !IsWildcard(pattern[k])
    ensures Like(value, pattern) <==> value == pattern
    decreases |pattern|
  {
    if |pattern| > 0 && |value| > 0 {
      LikeWithoutWildcardsIsEquality(value[1..], pattern[1..]);
      if value[1..] == pattern[1..] && value[0] == pattern[0] {
        assert value == [value[0]] + value[1..];
        assert pattern == [pattern[0]] + pattern[1..];
      }
    }
  }

  /**
   * An `_` in the pattern lets through any character at that position: a value
   * of the pattern's length that agrees with it wherever the pattern has an
   * ordinary character matches, whatever it holds under the underscores.
   */
  lemma {:induction false} UnderscoreMatchesAnyCharacter(value: string, pattern: string)
    requires |value| == |pattern|
    requires forall k :: 0 <= k < |pattern| ==> pattern[k] != '%'
    requires forall k :: 0 <= k < |pattern| && pattern[k] != '_' ==> value[k] == pattern[k]
    ensures Like(value, pattern)
    decreases |pattern|
  {
    if |pattern| > 0 {
      UnderscoreMatchesAnyCharacter(value[1..], pattern[1..]);
    }
  }

  /** The pattern `%` matches every value. */
  lemma {:induction false} PercentMatchesEverything(value: string)
    ensures Like(value, "%")
    decreases |value|
  {
    if |value| > 0 {
      PercentMatchesEverything(value[1..]);
    }
    assert "%"[1..] == "";
  }
}
