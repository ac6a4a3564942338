/**
 * The host-inventory parser `parse_hosts_file`: each line of the inventory
 * is a run of whitespace-separated `key=value` tokens; a line that names
 * both `host` and `ip` becomes one host record.
 */
module ParseHosts {
  import opened Wrappers
  import opened Text
  import opened Seqs

  /** One parsed line: lower-cased keys to their values. */
  type HostRecord = map<string, string>

  datatype WarningKind =
    | MalformedEntry(part: string)   // a token without `=`; only the token is dropped
    | MissingHostOrIp                // the whole line is dropped

  /** A diagnostic, with the 1-based number of the line it is about. */
  datatype Warning = Warning(line: nat, kind: WarningKind)

  datatype ParseError = HostsFileNotFound

  datatype Inventory = Inventory(hosts: seq<HostRecord>, warnings: seq<Warning>)

  // ------------------------------------------------------------- tokens

  /** What the tokens of one line amount to: the map built so far and the
      tokens that had no `=`, in order. */
  datatype Tokens = Tokens(fields: HostRecord, malformed: seq<string>)

  /** One step of the token loop. */
  function AddToken(acc: Tokens, part: string): Tokens {
    match SplitFirst(part, '=')
    case Some((key, value)) => acc.(fields := acc.fields[Lower(key) := value])
    case None => acc.(malformed := acc.malformed + [part])
  }

  /** The token loop run over `parts`, left to right. */
  function ReadTokens(parts: seq<string>): Tokens
    decreases |parts|
  {
    if parts == [] then Tokens(map[], [])
    else AddToken(ReadTokens(parts[..|parts| - 1]), parts[|parts| - 1])
  }

  /** The token `part` assigns the (lower-cased) key `k`. */
  predicate Assigns(part: string, k: string) {
    match SplitFirst(part, '=')
    case Some((key, _)) => Lower(key) == k
    case None => false
  }

  /** The value a token carries: everything after its first `=`. */
  function ValueOf(part: string): string
    requires '=' in part
  {
    SplitFirst(part, '=').value.1
  }

  lemma OverrideUpdate(m: HostRecord, n: HostRecord, k: string, v: string)
    ensures (m + n)[k := v] == m + n[k := v]
  {
  }

  lemma OverrideKeeps(m: HostRecord, n: HostRecord, k: string)
    requires k in m && k !in n
    ensures k in m + n && (m + n)[k] == m[k]
  {
  }

  lemma {:induction false} FieldsAppend(a: seq<string>, b: seq<string>)
    ensures ReadTokens(a + b).fields == ReadTokens(a).fields + ReadTokens(b).fields
    decreases |b|
  {
    if b == [] {
      assert a + b == a;
    } else {
      var b' := b[..|b| - 1];
      assert (a + b)[..|a + b| - 1] == a + b';
      var p := b[|b| - 1];
      assert ReadTokens(a + b) == AddToken(ReadTokens(a + b'), p);
      assert ReadTokens(b) == AddToken(ReadTokens(b'), p);
      FieldsAppend(a, b');
      match SplitFirst(p, '=')
      case Some((key, value)) =>
        OverrideUpdate(ReadTokens(a).fields, ReadTokens(b').fields, Lower(key), value);
      case None =>
    }
  }

  lemma {:induction false} MalformedAppend(a: seq<string>, b: seq<string>)
    ensures ReadTokens(a + b).malformed == ReadTokens(a).malformed + ReadTokens(b).malformed
    decreases |b|
  {
    if b == [] {
      assert a + b == a;
    } else {
      var b' := b[..|b| - 1];
      assert (a + b)[..|a + b| - 1] == a + b';
      MalformedAppend(a, b');
    }
  }

  /** Reading two runs of tokens one after the other: the second run's keys
      override the first's, and the malformed tokens are concatenated. */
  lemma ReadTokensAppend(a: seq<string>, b: seq<string>)
    ensures ReadTokens(a + b).fields == ReadTokens(a).fields + ReadTokens(b).fields
    ensures ReadTokens(a + b).malformed == ReadTokens(a).malformed + ReadTokens(b).malformed
  {
    FieldsAppend(a, b);
    MalformedAppend(a, b);
  }

  /** A single token either sets its lower-cased key or is reported. */
  lemma ReadOneToken(p: string)
    ensures '=' in p ==> ReadTokens([p]) == Tokens(map[Lower(SplitFirst(p, '=').value.0) := ValueOf(p)], [])
    ensures '=' !in p ==> ReadTokens([p]) == Tokens(map[], [p])
  {
    assert [p][..0] == [];
  }

  /** A token is cut at its first `=` only: the key before it is
      lower-cased, and the value keeps any further `=`. */
  lemma TokenSplitsOnFirstEquals(key: string, value: string)
    requires '=' !in key
    ensures ReadTokens([key + "=" + value]) == Tokens(map[Lower(key) := value], [])
  {
    SplitFirstUnique(key, '=', value);
    ReadOneToken(key + "=" + value);
  }

  /** A token adds at most its own key to the map. */
  lemma AddTokenKeys(acc: Tokens, p: string, k: string)
    ensures k in AddToken(acc, p).fields <==> k in acc.fields || Assigns(p, k)
  {
  }

  /** Tokens none of which assigns `k` leave `k` out of the map. */
  lemma {:induction false} UnassignedKeyAbsent(parts: seq<string>, k: string)
    requires forall u | 0 <= u < |parts| :: !Assigns(parts[u], k)
    ensures k !in ReadTokens(parts).fields
    decreases |parts|
  {
    if parts != [] {
      var front := parts[..|parts| - 1];
      assert forall u | 0 <= u < |front| :: front[u] == parts[u];
      UnassignedKeyAbsent(front, k);
    }
  }

  /** One more token read by the token loop. */
  lemma ReadTokensSnoc(parts: seq<string>, i: nat)
    requires i < |parts|
    ensures ReadTokens(parts[..i + 1]) == AddToken(ReadTokens(parts[..i]), parts[i])
  {
    assert parts[..i + 1][..i] == parts[..i];
  }

  /** A token that assigns `k` stores its value under `k`. */
  lemma AddTokenAssigns(acc: Tokens, p: string, k: string)
    requires Assigns(p, k)
    ensures k in AddToken(acc, p).fields && AddToken(acc, p).fields[k] == ValueOf(p)
  {
  }

  /** A key that some token assigns is in the map. */
  lemma AssignedKeyPresent(parts: seq<string>, t: nat, k: string)
    requires t < |parts| && Assigns(parts[t], k)
    ensures k in ReadTokens(parts).fields
  {
    var a, b := parts[..t + 1], parts[t + 1..];
    assert parts == a + b;
    ReadTokensAppend(a, b);
    ReadTokensSnoc(parts, t);
    AddTokenAssigns(ReadTokens(parts[..t]), parts[t], k);
  }

  /** A key is in the line's map exactly when some token assigns it. */
  lemma FieldsDomain(parts: seq<string>, k: string)
    ensures k in ReadTokens(parts).fields <==> exists t | 0 <= t < |parts| :: Assigns(parts[t], k)
  {
    if t :| 0 <= t < |parts| && Assigns(parts[t], k) {
      AssignedKeyPresent(parts, t, k);
    } else {
      UnassignedKeyAbsent(parts, k);
    }
  }

  /** Last occurrence wins: the value stored for a key is that of the last
      token that assigns it. */
  lemma LastAssignmentWins(parts: seq<string>, t: nat, k: string)
    requires t < |parts| && Assigns(parts[t], k)
    requires forall u | t < u < |parts| :: !Assigns(parts[u], k)
    ensures k in ReadTokens(parts).fields
    ensures ReadTokens(parts).fields[k] == ValueOf(parts[t])
  {
    var a, b := parts[..t + 1], parts[t + 1..];
    SplitTwo(parts, t + 1);
    FieldsAppend(a, b);
    forall u | 0 <= u < |b| ensures !Assigns(b[u], k) {
      assert b[u] == parts[t + 1 + u];
    }
    UnassignedKeyAbsent(b, k);
    ReadTokensSnoc(parts, t);
    AddTokenAssigns(ReadTokens(parts[..t]), parts[t], k);
    OverrideKeeps(ReadTokens(a).fields, ReadTokens(b).fields, k);
  }

  /** A malformed token does not disturb the rest of its line. */
  lemma MalformedTokenIgnored(a: seq<string>, bad: string, b: seq<string>)
    requires '=' !in bad
    ensures ReadTokens(a + [bad] + b).fields == ReadTokens(a + b).fields
    ensures ReadTokens(a + [bad] + b).malformed == ReadTokens(a).malformed + [bad] + ReadTokens(b).malformed
  {
    ReadTokensAppend(a + [bad], b);
    ReadTokensAppend(a, [bad]);
    ReadTokensAppend(a, b);
    ReadOneToken(bad);
    assert ReadTokens(a).fields + map[] == ReadTokens(a).fields;
  }

  // --------------------------------------------------------------- lines

  /** The outcome of one line: at most one record, and its warnings. */
  datatype LineResult = LineResult(record: Option<HostRecord>, warnings: seq<Warning>)

  /** One malformed-entry warning per dropped token, in token order. */
  function MalformedWarnings(parts: seq<string>, lineNo: nat): (ws: seq<Warning>)
    ensures |ws| == |parts|
    ensures forall i | 0 <= i < |ws| :: ws[i] == Warning(lineNo, MalformedEntry(parts[i]))
  {
    if parts == [] then []
    else MalformedWarnings(parts[..|parts| - 1], lineNo) + [Warning(lineNo, MalformedEntry(parts[|parts| - 1]))]
  }

  /** The `key` field, if any, is rewritten by `normKey`, which stands for
      `os.path.normpath(os.path.expanduser(...))`. */
  function NormalizeKey(fields: HostRecord, normKey: string -> string): (r: HostRecord)
    ensures r.Keys == fields.Keys
    ensures forall k | k in r && k != "key" :: r[k] == fields[k]
    ensures "key" in r ==> r["key"] == normKey(fields["key"])
  {
    if "key" in fields then fields["key" := normKey(fields["key"])] else fields
  }

  /** One iteration of the line loop, for line number `lineNo`. */
  function ParseLine(line: string, lineNo: nat, normKey: string -> string): LineResult {
    var stripped := Strip(line);
    if IsBlankOrComment(stripped) then LineResult(None, [])
    else
      var toks := ReadTokens(Words(stripped));
      var malformed := MalformedWarnings(toks.malformed, lineNo);
      if "host" !in toks.fields || "ip" !in toks.fields then
        LineResult(None, malformed + [Warning(lineNo, MissingHostOrIp)])
      else
        LineResult(Some(NormalizeKey(toks.fields, normKey)), malformed)
  }

  /** A line of the inventory with its number, as `enumerate(f, 1)` yields
      it. */
  datatype NumberedLine = NumberedLine(number: nat, text: string)

  /** `enumerate(lines, first)`: every line paired with its number. */
  function Enumerate(lines: seq<string>, first: nat): (e: seq<NumberedLine>)
    ensures |e| == |lines|
    decreases |lines|
  {
    if lines == [] then []
    else Enumerate(lines[..|lines| - 1], first) + [NumberedLine(first + |lines| - 1, lines[|lines| - 1])]
  }

  /** Line `i` is numbered `first + i`. */
  lemma {:induction false} EnumerateAt(lines: seq<string>, first: nat, i: nat)
    requires i < |lines|
    ensures Enumerate(lines, first)[i] == NumberedLine(first + i, lines[i])
    decreases |lines|
  {
    if i < |lines| - 1 {
      EnumerateAt(lines[..|lines| - 1], first, i);
    }
  }

  /** The line loop over `items` with `step` reading one of them: each adds
      at most one record and its warnings, after those of the items before
      it. */
  function FoldLines<L>(items: seq<L>, step: L -> LineResult): Inventory
    decreases |items|
  {
    if items == [] then Inventory([], [])
    else
      var prev := FoldLines(items[..|items| - 1], step);
      var r := step(items[|items| - 1]);
      Inventory(prev.hosts + OptionToSeq(r.record), prev.warnings + r.warnings)
  }

  /** `ParseLine` as the step of the line loop. */
  function LineReader(normKey: string -> string): NumberedLine -> LineResult {
    (l: NumberedLine) => ParseLine(l.text, l.number, normKey)
  }

  /** What `parse_hosts_file` computes from the inventory's lines, the first
      of which has number `first`. */
  function ParseLines(lines: seq<string>, first: nat, normKey: string -> string): Inventory {
    FoldLines(Enumerate(lines, first), LineReader(normKey))
  }

  /** The tokens of a line that is not blank or a comment. */
  function LineTokens(line: string): Tokens {
    ReadTokens(Words(Strip(line)))
  }

  /** A blank, whitespace-only or comment line yields nothing at all. */
  lemma SkippedLineSilent(line: string, lineNo: nat, normKey: string -> string)
    requires AllSpace(line) || Strip(line)[0] == '#' || Strip(line)[0] == ';'
    ensures ParseLine(line, lineNo, normKey) == LineResult(None, [])
  {
    StripEmpty(line);
  }

  /** A line yields a record exactly when it is not skipped and its tokens
      assign both `host` and `ip`; otherwise a non-skipped line ends with a
      missing-host/ip warning. Every warning carries the line's number. */
  lemma LineRecordIffHostAndIp(line: string, lineNo: nat, normKey: string -> string)
    ensures var r := ParseLine(line, lineNo, normKey);
      && (r.record.Some? <==>
            !IsBlankOrComment(Strip(line))
            && "host" in LineTokens(line).fields && "ip" in LineTokens(line).fields)
      && (r.record.None? && !IsBlankOrComment(Strip(line)) ==>
            r.warnings != [] && r.warnings[|r.warnings| - 1] == Warning(lineNo, MissingHostOrIp))
      && (forall w | w in r.warnings :: w.line == lineNo)
  {
  }

  /** The record of a line keeps every parsed field except `key` as it was
      written, extras included, and rewrites only `key`. */
  lemma RecordFields(line: string, lineNo: nat, normKey: string -> string)
    requires ParseLine(line, lineNo, normKey).record.Some?
    ensures var rec := ParseLine(line, lineNo, normKey).record.value;
      && rec.Keys == LineTokens(line).fields.Keys
      && (forall k | k in rec && k != "key" :: rec[k] == LineTokens(line).fields[k])
      && ("key" in rec ==> rec["key"] == normKey(LineTokens(line).fields["key"]))
  {
  }

  /** The line loop after one more item. */
  lemma FoldPush<L>(front: seq<L>, x: L, step: L -> LineResult)
    ensures var prev := FoldLines(front, step);
      FoldLines(front + [x], step)
        == Inventory(prev.hosts + OptionToSeq(step(x).record), prev.warnings + step(x).warnings)
  {
    DropPushed(front, x);
  }

  /** The loop over `a + b` is the loop over `a` followed by the loop over
      `b`. */
  lemma {:induction false} FoldAppend<L>(a: seq<L>, b: seq<L>, step: L -> LineResult)
    ensures FoldLines(a + b, step)
         == Inventory(FoldLines(a, step).hosts + FoldLines(b, step).hosts,
                      FoldLines(a, step).warnings + FoldLines(b, step).warnings)
    decreases |b|
  {
    if b == [] {
      assert a + b == a;
      AppendEmpty(FoldLines(a, step).hosts);
      AppendEmpty(FoldLines(a, step).warnings);
    } else {
      var b', x := b[..|b| - 1], b[|b| - 1];
      assert a + b == (a + b') + [x] && b == b' + [x] by {
        SplitLast(b);
        AppendAssoc(a, b', [x]);
      }
      FoldAppend(a, b', step);
      FoldPush(a + b', x, step);
      FoldPush(b', x, step);
      AppendAssoc(FoldLines(a, step).hosts, FoldLines(b', step).hosts, OptionToSeq(step(x).record));
      AppendAssoc(FoldLines(a, step).warnings, FoldLines(b', step).warnings, step(x).warnings);
    }
  }

  /** No more records than items. */
  lemma {:induction false} FoldAtMostOne<L>(items: seq<L>, step: L -> LineResult)
    ensures |FoldLines(items, step).hosts| <= |items|
    decreases |items|
  {
    if items != [] {
      FoldAtMostOne(items[..|items| - 1], step);
    }
  }

  /** Numbering `a + b` numbers `b` on from where `a` ended. */
  lemma EnumerateAppend(a: seq<string>, b: seq<string>, first: nat)
    ensures Enumerate(a + b, first) == Enumerate(a, first) + Enumerate(b, first + |a|)
  {
    var e, ea, eb := Enumerate(a + b, first), Enumerate(a, first), Enumerate(b, first + |a|);
    forall i | 0 <= i < |e|
      ensures e[i] == (ea + eb)[i]
    {
      EnumerateAt(a + b, first, i);
      if i < |a| {
        EnumerateAt(a, first, i);
      } else {
        EnumerateAt(b, first + |a|, i - |a|);
        assert (a + b)[i] == b[i - |a|];
      }
    }
  }

  /** Item `i` contributes its record between the records of the items
      before it and those of the items after it. */
  lemma FoldContribution<L>(items: seq<L>, i: nat, step: L -> LineResult)
    requires i < |items|
    ensures FoldLines(items, step).hosts
         == FoldLines(items[..i], step).hosts + OptionToSeq(step(items[i]).record) + FoldLines(items[i + 1..], step).hosts
  {
    var a, x, c := items[..i], items[i], items[i + 1..];
    assert items == a + ([x] + c) && [x] == [] + [x] by {
      SplitAt(items, i);
    }
    FoldAppend(a, [x] + c, step);
    FoldAppend([x], c, step);
    FoldPush([], x, step);
    AppendEmpty(OptionToSeq(step(x).record));
    AppendAssoc(FoldLines(a, step).hosts, OptionToSeq(step(x).record), FoldLines(c, step).hosts);
  }

  /** The numbered prefix of the lines is the numbering of their prefix. */
  lemma EnumeratePrefix(lines: seq<string>, i: nat, first: nat)
    requires i <= |lines|
    ensures Enumerate(lines, first)[..i] == Enumerate(lines[..i], first)
  {
    var e, p := Enumerate(lines, first)[..i], Enumerate(lines[..i], first);
    forall k | 0 <= k < i
      ensures e[k] == p[k]
    {
      EnumerateAt(lines, first, k);
      EnumerateAt(lines[..i], first, k);
    }
  }

  /** The numbered suffix from line `i` on is the numbering of that suffix
      from `first + i`. */
  lemma EnumerateSuffix(lines: seq<string>, i: nat, first: nat)
    requires i <= |lines|
    ensures Enumerate(lines, first)[i..] == Enumerate(lines[i..], first + i)
  {
    var e, p := Enumerate(lines, first)[i..], Enumerate(lines[i..], first + i);
    forall k | 0 <= k < |lines| - i
      ensures e[k] == p[k]
    {
      EnumerateAt(lines, first, i + k);
      EnumerateAt(lines[i..], first + i, k);
    }
  }

  /** Reading the lines `a + b` yields the records of `a`, then those of
      `b` numbered on from where `a` ended, and the warnings likewise:
      output keeps file order. */
  lemma ParseLinesAppend(a: seq<string>, b: seq<string>, first: nat, normKey: string -> string)
    ensures ParseLines(a + b, first, normKey).hosts
         == ParseLines(a, first, normKey).hosts + ParseLines(b, first + |a|, normKey).hosts
    ensures ParseLines(a + b, first, normKey).warnings
         == ParseLines(a, first, normKey).warnings + ParseLines(b, first + |a|, normKey).warnings
  {
    EnumerateAppend(a, b, first);
    FoldAppend(Enumerate(a, first), Enumerate(b, first + |a|), LineReader(normKey));
  }

  /** The line loop's step is `ParseLine`. */
  lemma ReaderIsParseLine(line: string, n: nat, normKey: string -> string)
    ensures LineReader(normKey)(NumberedLine(n, line)) == ParseLine(line, n, normKey)
  {
  }

  /** A single line contributes exactly what `ParseLine` gives it. */
  lemma ParseOneLine(line: string, lineNo: nat, normKey: string -> string)
    ensures ParseLines([line], lineNo, normKey)
         == Inventory(OptionToSeq(ParseLine(line, lineNo, normKey).record), ParseLine(line, lineNo, normKey).warnings)
  {
    var l := NumberedLine(lineNo, line);
    assert Enumerate([line], lineNo) == [] + [l];
    FoldPush([], l, LineReader(normKey));
    ReaderIsParseLine(line, lineNo, normKey);
    AppendEmpty(OptionToSeq(ParseLine(line, lineNo, normKey).record));
    AppendEmpty(ParseLine(line, lineNo, normKey).warnings);
  }

  /** Numbered line `i` contributes what `step` gives it between the output
      of the lines before it and that of the lines after it. */
  lemma NumberedContribution(lines: seq<string>, i: nat, first: nat, step: NumberedLine -> LineResult)
    requires i < |lines|
    ensures FoldLines(Enumerate(lines, first), step).hosts
         == FoldLines(Enumerate(lines[..i], first), step).hosts
          + OptionToSeq(step(NumberedLine(first + i, lines[i])).record)
          + FoldLines(Enumerate(lines[i + 1..], first + i + 1), step).hosts
  {
    var e := Enumerate(lines, first);
    assert e[..i] == Enumerate(lines[..i], first) by {
      EnumeratePrefix(lines, i, first);
    }
    assert e[i + 1..] == Enumerate(lines[i + 1..], first + i + 1) by {
      EnumerateSuffix(lines, i + 1, first);
    }
    assert e[i] == NumberedLine(first + i, lines[i]) by {
      EnumerateAt(lines, first, i);
    }
    FoldContribution(e, i, step);
  }

  /** The `i`-th line (0-based) contributes what `ParseLine` gives it under
      line number `first + i`, between the output of the lines before it and
      that of the lines after it. */
  lemma LineContribution(lines: seq<string>, i: nat, first: nat, normKey: string -> string)
    requires i < |lines|
    ensures ParseLines(lines, first, normKey).hosts
         == ParseLines(lines[..i], first, normKey).hosts
          + OptionToSeq(ParseLine(lines[i], first + i, normKey).record)
          + ParseLines(lines[i + 1..], first + i + 1, normKey).hosts
  {
    var step := LineReader(normKey);
    assert step(NumberedLine(first + i, lines[i])) == ParseLine(lines[i], first + i, normKey);
    NumberedContribution(lines, i, first, step);
  }

  /** At most one record per input line. */
  lemma AtMostOneRecordPerLine(lines: seq<string>, first: nat, normKey: string -> string)
    ensures |ParseLines(lines, first, normKey).hosts| <= |lines|
  {
    FoldAtMostOne(Enumerate(lines, first), LineReader(normKey));
  }

  /** Every warning of the loop comes from one of its items. */
  lemma {:induction false} FoldWarningSource<L>(items: seq<L>, step: L -> LineResult, w: Warning)
    requires w in FoldLines(items, step).warnings
    ensures exists k | 0 <= k < |items| :: w in step(items[k]).warnings
    decreases |items|
  {
    var n := |items| - 1;
    if w in FoldLines(items[..n], step).warnings {
      FoldWarningSource(items[..n], step, w);
      var k :| 0 <= k < n && w in step(items[..n][k]).warnings;
      assert items[..n][k] == items[k];
    } else {
      assert w in step(items[n]).warnings;
    }
  }

  /** When every warning of a numbered line carries that line's number,
      every warning of the loop names one of the lines. */
  lemma NumberedWarnings(lines: seq<string>, first: nat, step: NumberedLine -> LineResult)
    requires forall l: NumberedLine, w | w in step(l).warnings :: w.line == l.number
    ensures forall w | w in FoldLines(Enumerate(lines, first), step).warnings :: first <= w.line < first + |lines|
  {
    var e := Enumerate(lines, first);
    forall w | w in FoldLines(e, step).warnings
      ensures first <= w.line < first + |lines|
    {
      FoldWarningSource(e, step, w);
      var k :| 0 <= k < |e| && w in step(e[k]).warnings;
      EnumerateAt(lines, first, k);
    }
  }

  /** Every warning names a line of the input. */
  lemma WarningLinesInRange(lines: seq<string>, first: nat, normKey: string -> string)
    ensures forall w | w in ParseLines(lines, first, normKey).warnings :: first <= w.line < first + |lines|
  {
    var step := LineReader(normKey);
    forall l: NumberedLine, w | w in step(l).warnings
      ensures w.line == l.number
    {
      LineRecordIffHostAndIp(l.text, l.number, normKey);
    }
    NumberedWarnings(lines, first, step);
  }

  /** Items that each yield nothing yield nothing together. */
  lemma {:induction false} FoldSilent<L>(items: seq<L>, step: L -> LineResult)
    requires forall k | 0 <= k < |items| :: step(items[k]) == LineResult(None, [])
    ensures FoldLines(items, step) == Inventory([], [])
    decreases |items|
  {
    if items != [] {
      var n := |items| - 1;
      assert forall k | 0 <= k < n :: items[..n][k] == items[k];
      FoldSilent(items[..n], step);
    }
  }

  /** An inventory of nothing but blank and comment lines parses to no
      records and no warnings. */
  lemma OnlyCommentsYieldNothing(lines: seq<string>, first: nat, normKey: string -> string)
    requires forall i | 0 <= i < |lines| :: IsBlankOrComment(Strip(lines[i]))
    ensures ParseLines(lines, first, normKey) == Inventory([], [])
  {
    var e := Enumerate(lines, first);
    forall k | 0 <= k < |e|
      ensures LineReader(normKey)(e[k]) == LineResult(None, [])
    {
      EnumerateAt(lines, first, k);
      ReaderIsParseLine(lines[k], first + k, normKey);
    }
    FoldSilent(e, LineReader(normKey));
  }

  /** The loop after one more item. */
  lemma FoldSnoc<L>(items: seq<L>, i: nat, step: L -> LineResult)
    requires i < |items|
    ensures var prev := FoldLines(items[..i], step);
      FoldLines(items[..i + 1], step)
        == Inventory(prev.hosts + OptionToSeq(step(items[i]).record), prev.warnings + step(items[i]).warnings)
  {
    PrefixPush(items, i);
    FoldPush(items[..i], items[i], step);
  }

  // ------------------------------------------------------------- methods

  /** The body of the line loop of `parse_hosts_file` for one line: the
      record it appends, if any, and the warnings it prints, in order. */
  method ReadLine(rawLine: string, lineNo: nat, normKey: string -> string)
    returns (record: Option<HostRecord>, warnings: seq<Warning>)
    ensures LineResult(record, warnings) == ParseLine(rawLine, lineNo, normKey)
  {
    var line := Strip(rawLine);
    if IsBlankOrComment(line) {
      return None, [];
    }
    var parts := Words(line);
    var details: HostRecord := map[];
    warnings := [];
    ghost var dropped: seq<string> := [];
    for j := 0 to |parts|
      invariant ReadTokens(parts[..j]) == Tokens(details, dropped)
      invariant warnings == MalformedWarnings(dropped, lineNo)
    {
      assert parts[..j + 1][..j] == parts[..j];
      var split := SplitFirst(parts[j], '=');
      if split.Some? {
        var (key, value) := split.value;
        details := details[Lower(key) := value];
      } else {
        warnings := warnings + [Warning(lineNo, MalformedEntry(parts[j]))];
        assert (dropped + [parts[j]])[..|dropped|] == dropped;
        dropped := dropped + [parts[j]];
      }
    }
    assert parts[..|parts|] == parts;
    if "host" !in details || "ip" !in details {
      warnings := warnings + [Warning(lineNo, MissingHostOrIp)];
      return None, warnings;
    }
    if "key" in details {
      details := details["key" := normKey(details["key"])];
    }
    return Some(details), warnings;
  }

  /** `parse_hosts_file`. `file` is the inventory's lines, or `None` when no
      file exists at the path; the function then ends the run before reading
      anything. */
  method ParseHostsFile(file: Option<seq<string>>, normKey: string -> string)
    returns (r: Result<Inventory, ParseError>)
    ensures file.None? ==> r == Failure(HostsFileNotFound)
    ensures file.Some? ==> r == Success(ParseLines(file.value, 1, normKey))
  {
    if file.None? {
      return Failure(HostsFileNotFound);
    }
    var numbered := Enumerate(file.value, 1);
    var hosts: seq<HostRecord> := [];
    var warnings: seq<Warning> := [];
    for i := 0 to |numbered|
      invariant Inventory(hosts, warnings) == FoldLines(numbered[..i], LineReader(normKey))
    {
      var line := numbered[i];
      var record, lineWarnings := ReadLine(line.text, line.number, normKey);
      ReaderIsParseLine(line.text, line.number, normKey);
      FoldSnoc(numbered, i, LineReader(normKey));
      hosts := hosts + OptionToSeq(record);
      warnings := warnings + lineWarnings;
    }
    assert numbered[..|numbered|] == numbered;
    return Success(Inventory(hosts, warnings));
  }
}
