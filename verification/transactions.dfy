/** The per-line transform of `read_csv`: a transaction is the comma-separated
    fields of the stripped line, without the field after the last comma. */
module Transactions {
  import opened Text
  import opened Seqs

  type Transaction = seq<string>

  /** `line.strip().split(',')[:-1]`. */
  function ParseLine(line: string): Transaction
  {
    var fields := Split(Strip(line), ',');
    fields[..|fields| - 1]
  }

  /** A transaction has as many items as the stripped line has commas, and
      no item holds a comma. */
  lemma ParseLineFields(line: string)
    ensures |ParseLine(line)| == multiset(Strip(line))[',']
    ensures forall i :: 0 <= i < |ParseLine(line)| ==> ',' !in ParseLine(line)[i]
  {
    SplitCount(Strip(line), ',');
    SplitFieldsFree(Strip(line), ',');
  }

  /** The items, each followed by a comma, make up the stripped line up to
      and including its last comma; what comes after the last comma is
      dropped. */
  lemma ParseLineLayout(line: string)
    ensures Terminated(ParseLine(line), ',') <= Strip(line)
    ensures ',' !in Strip(line)[|Terminated(ParseLine(line), ',')|..]
  {
    var s := Strip(line);
    var fields := Split(s, ',');
    SplitFieldsFree(s, ',');
    SplitJoin(s, ',');
    JoinTerminated(fields, ',');
    assert s == Terminated(ParseLine(line), ',') + fields[|fields| - 1];
  }

  /** Conversely, a stripped line made of comma-terminated fields and a
      comma-free tail parses to exactly those fields. */
  lemma ParseLineOf(line: string, fields: seq<string>, tail: string)
    requires Strip(line) == Terminated(fields, ',') + tail
    requires forall i :: 0 <= i < |fields| ==> ',' !in fields[i]
    requires ',' !in tail
    ensures ParseLine(line) == fields
  {
    var parts := fields + [tail];
    assert parts[..|parts| - 1] == fields;
    JoinTerminated(parts, ',');
    JoinSplit(parts, ',');
  }

  /** The transactions of `read_csv`, one per line, in line order. */
  function ReadTransactions(lines: seq<string>): (ts: seq<Transaction>)
    ensures |ts| == |lines|
    ensures forall i :: 0 <= i < |lines| ==> ts[i] == ParseLine(lines[i])
  {
    Map(ParseLine, lines)
  }

  /** Reading a file in two pieces gives the transactions of each piece in turn. */
  lemma ReadTransactionsAppend(a: seq<string>, b: seq<string>)
    ensures ReadTransactions(a + b) == ReadTransactions(a) + ReadTransactions(b)
  {
    MapAppend(ParseLine, a, b);
  }

  /** Writing items as `item,` each, on a line of their own, and reading the
      line back gives the items again, provided no item holds a comma and the
      line does not start with whitespace. */
  lemma {:induction false} TerminatedLineRoundTrip(items: seq<string>)
    requires forall i :: 0 <= i < |items| ==> ',' !in items[i]
    requires items != [] && items[0] != [] ==> !IsSpace(items[0][0])
    ensures ParseLine(Terminated(items, ',') + "\n") == items
  {
    var t := Terminated(items, ',');
    if items != [] {
      TerminatedEndsWith(items, ',');
      assert t[0] == (if items[0] == [] then ',' else items[0][0]);
    }
    StripNewline(t);
    assert t + [] == t;
    ParseLineOf(t + "\n", items, []);
  }

  /** Without a trailing comma the last item of a line is dropped. */
  lemma JoinedLineLosesLast(items: seq<string>)
    requires |items| >= 1
    requires forall i :: 0 <= i < |items| ==> ',' !in items[i]
    requires Trimmed(Join(items, ','))
    ensures ParseLine(Join(items, ',') + "\n") == items[..|items| - 1]
  {
    var s := Join(items, ',');
    JoinTerminated(items, ',');
    StripNewline(s);
    ParseLineOf(s + "\n", items[..|items| - 1], items[|items| - 1]);
  }

  lemma StripNewline(r: string)
    requires Trimmed(r)
    ensures Strip(r + "\n") == r
  {
    StripExact([], r, "\n");
    assert [] + r + "\n" == r + "\n";
  }
}
