/** The text `main` writes: one line per frequent itemset, `{a,b,c}`, and one
    line per rule, `{a,b} => {c}`. */
module Output {
  import opened Text

  /** A frequent-itemset line: `{`, each item followed by a comma, the last
      character dropped, then `}` and a newline. `items` is listed in the
      iteration order of the frozenset. An empty itemset would lose its
      opening brace. */
  function FormatItemset(items: seq<string>): (line: string)
    ensures items == [] ==> line == "}\n"
    ensures |line| >= 2 && line[|line| - 2..] == "}\n"
  {
    Chop("{" + Terminated(items, ',')) + "}\n"
  }

  /** A non-empty terminated list is the joined list and one more separator. */
  lemma {:induction false} TerminatedJoin(parts: seq<string>, sep: char)
    requires parts != []
    ensures Terminated(parts, sep) == Join(parts, sep) + [sep]
  {
    if |parts| > 1 {
      TerminatedJoin(parts[1..], sep);
    }
  }

  /** Dropping the final separator of `{` followed by a terminated list. */
  lemma ChopTerminated(prefix: string, parts: seq<string>, sep: char)
    requires parts != []
    ensures Chop(prefix + Terminated(parts, sep)) == prefix + Join(parts, sep)
  {
    TerminatedJoin(parts, sep);
    assert prefix + Terminated(parts, sep) == (prefix + Join(parts, sep)) + [sep];
  }

  /** A non-empty itemset is written as its items joined by commas, in braces. */
  lemma ItemsetLine(items: seq<string>)
    requires items != []
    ensures FormatItemset(items) == "{" + Join(items, ',') + "}\n"
  {
    ChopTerminated("{", items, ',');
  }

  /** Splitting the text between the braces at its commas gives the items
      back, when no item holds a comma. */
  lemma ItemsetLineRoundTrip(items: seq<string>)
    requires items != []
    requires forall i :: 0 <= i < |items| ==> ',' !in items[i]
    ensures var line := FormatItemset(items);
            |line| >= 3 && line[0] == '{' && Split(line[1..|line| - 2], ',') == items
  {
    ItemsetLine(items);
    var line := FormatItemset(items);
    assert line[1..|line| - 2] == Join(items, ',');
    JoinSplit(items, ',');
  }

  /** The inner loop over a rule's elements, from the text `out` built so far:
      the `"=>"` marker replaces the trailing comma with `} => {`, any other
      element is appended with a comma. */
  function RuleText(out: string, items: seq<string>): string
    decreases |items|
  {
    if items == [] then out
    else if items[0] == "=>" then RuleText(Chop(out) + "} => {", items[1..])
    else RuleText(out + items[0] + ",", items[1..])
  }

  /** A rule line: the text of the loop, its last character dropped, then `}`
      and a newline. */
  function FormatRule(rule: seq<string>): (line: string)
    ensures |line| >= 2 && line[|line| - 2..] == "}\n"
  {
    Chop(RuleText("{", rule)) + "}\n"
  }

  /** Elements without the marker are each appended with a comma. */
  lemma {:induction false} RuleTextPlain(out: string, a: seq<string>, rest: seq<string>)
    requires "=>" !in a
    ensures RuleText(out, a + rest) == RuleText(out + Terminated(a, ','), rest)
    decreases a
  {
    if a == [] {
      assert a + rest == rest && out + Terminated(a, ',') == out;
    } else {
      assert (a + rest)[0] == a[0] && (a + rest)[1..] == a[1..] + rest;
      RuleTextPlain(out + a[0] + ",", a[1..], rest);
      assert out + a[0] + "," + Terminated(a[1..], ',') == out + Terminated(a, ',');
    }
  }

  /** A rule `a => c` with both sides non-empty is written `{a} => {c}`, each
      side joined by commas. */
  lemma RuleLine(a: seq<string>, c: seq<string>)
    requires a != [] && c != []
    requires "=>" !in a && "=>" !in c
    ensures FormatRule(a + ["=>"] + c) == "{" + Join(a, ',') + "} => {" + Join(c, ',') + "}\n"
  {
    RuleTextPlain("{", a, ["=>"] + c);
    assert a + ["=>"] + c == a + (["=>"] + c);
    var left := Chop("{" + Terminated(a, ',')) + "} => {";
    ChopTerminated("{", a, ',');
    assert RuleText("{" + Terminated(a, ','), ["=>"] + c) == RuleText(left, c);
    RuleTextPlain(left, c, []);
    assert c + [] == c;
    ChopTerminated(left, c, ',');
  }

  /** Without the marker a rule is written exactly like an itemset. */
  lemma RuleWithoutMarker(items: seq<string>)
    requires "=>" !in items
    ensures FormatRule(items) == FormatItemset(items)
  {
    RuleTextPlain("{", items, []);
    assert items + [] == items;
  }
}
