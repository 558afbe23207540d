/** The operator vocabulary of filter objects: each `$keyword` names the
    comparator the document store applies (repository/src/filters.ts). */
module Filters {
  import opened JsValues

  /** The nine keywords and the store comparator each one maps to. As in the
      source, `$greaterThanOrEqual` maps to "<=", the comparator of
      `$lessThanOrEqual`. */
  const WhereFilterOps: map<string, string> := map[
    "$lessThan" := "<",
    "$lessThanOrEqual" := "<=",
    "$greaterThan" := ">",
    "$greaterThanOrEqual" := "<=",
    "$in" := "in",
    "$notIn" := "not-in",
    "$not" := "!=",
    "$arrayContains" := "array-contains",
    "$arrayContainsAny" := "array-contains-any"
  ]

  /** The comparators the document store understands. */
  const StoreComparators: set<string> :=
    {"<", "<=", "==", ">", ">=", "!=", "array-contains", "array-contains-any", "in", "not-in"}

  /** `whereFilterOps.get(keyword)`: None stands for `undefined`. */
  function LookupOp(keyword: string): (r: Option<string>)
    ensures r.None? <==> keyword !in WhereFilterOps.Keys
    ensures r.Some? ==> r.value in StoreComparators && r.value != "==" && r.value != ">="
  {
    if keyword in WhereFilterOps then Some(WhereFilterOps[keyword]) else None
  }

  /** The table has exactly the nine keywords. */
  lemma TableKeys()
    ensures WhereFilterOps.Keys == {"$lessThan", "$lessThanOrEqual", "$greaterThan", "$greaterThanOrEqual",
                                    "$in", "$notIn", "$not", "$arrayContains", "$arrayContainsAny"}
  {
  }

  lemma TableSize()
    ensures |WhereFilterOps| == 9
  {
  }

  /** The comparators the table gives. */
  lemma TableValues()
    ensures WhereFilterOps.Values == {"<", "<=", ">", "in", "not-in", "!=", "array-contains", "array-contains-any"}
  {
    var m := WhereFilterOps;
    var vs := {"<", "<=", ">", "in", "not-in", "!=", "array-contains", "array-contains-any"};
    forall v | v in m.Values ensures v in vs {
      var k :| k in m && m[k] == v;
    }
    forall v | v in vs ensures v in m.Values {
      if v == "<" { assert m["$lessThan"] == v; }
      else if v == "<=" { assert m["$lessThanOrEqual"] == v; }
      else if v == ">" { assert m["$greaterThan"] == v; }
      else if v == "in" { assert m["$in"] == v; }
      else if v == "not-in" { assert m["$notIn"] == v; }
      else if v == "!=" { assert m["$not"] == v; }
      else if v == "array-contains" { assert m["$arrayContains"] == v; }
      else { assert m["$arrayContainsAny"] == v; }
    }
  }

  /** Only eight distinct comparators: the table is not injective, and no
      keyword yields ">=". */
  lemma TableComparators()
    ensures |WhereFilterOps.Values| == 8
    ensures WhereFilterOps["$greaterThanOrEqual"] == WhereFilterOps["$lessThanOrEqual"] == "<="
    ensures forall k :: LookupOp(k) != Some(">=")
  {
    TableValues();
    ComparatorCount();
  }

  lemma ComparatorCount()
    ensures |{"<", "<=", ">", "in", "not-in", "!=", "array-contains", "array-contains-any"}| == 8
  {
    var s1: set<string> := {"<"};
    var s2 := s1 + {"<="};
    assert "<=" !in s1 by { assert "<="[0] != "<"[0] || |"<="| != |"<"|; }
    var s3 := s2 + {">"};
    assert ">" !in s2 by { assert ">"[0] != "<"[0] && |">"| != |"<="|; }
    var s4 := s3 + {"in"};
    assert "in" !in s3 by { assert "in"[0] != "<="[0] && |"in"| != |"<"|; }
    var s5 := s4 + {"not-in"};
    assert "not-in" !in s4 by { assert |"not-in"| == 6; }
    var s6 := s5 + {"!="};
    assert "!=" !in s5 by { assert "!="[0] != "<="[0] && "!="[0] != "in"[0]; }
    var s7 := s6 + {"array-contains"};
    assert "array-contains" !in s6 by { assert |"array-contains"| == 14; }
    var s8 := s7 + {"array-contains-any"};
    assert "array-contains-any" !in s7 by { assert |"array-contains-any"| == 18; }
    assert s8 == {"<", "<=", ">", "in", "not-in", "!=", "array-contains", "array-contains-any"};
  }

  /** The individual entries of the table. */
  lemma TableEntries()
    ensures LookupOp("$lessThan") == Some("<")
    ensures LookupOp("$lessThanOrEqual") == Some("<=")
    ensures LookupOp("$greaterThan") == Some(">")
    ensures LookupOp("$greaterThanOrEqual") == Some("<=")
    ensures LookupOp("$in") == Some("in")
    ensures LookupOp("$notIn") == Some("not-in")
    ensures LookupOp("$not") == Some("!=")
    ensures LookupOp("$arrayContains") == Some("array-contains")
    ensures LookupOp("$arrayContainsAny") == Some("array-contains-any")
    ensures LookupOp("0") == None && LookupOp("$eq") == None
  {
  }
}
