/** The row level of the CSV import and export of ForestService: what a row says about a host
    and its rules, and how consecutive rows are grouped back into hosts. Quoting, the csv
    module and the utf-8 encoding of unicode values are not modelled. */
module CsvRows {
  import opened Base
  import opened Strings

  /** The values export writes: text, a flag, or nothing. */
  datatype Field = Text(text: string) | Flag(flag: bool) | Missing

  /** to_str: text as is, True as "on", False as "off", None as "". */
  function ToStr(f: Field): (r: string)
    ensures f.Text? ==> r == f.text
    ensures f.Flag? ==> (r == "on" || r == "off") && (r == "on" <==> f.flag)
    ensures f.Missing? ==> r == ""
  {
    match f
    case Text(t) => t
    case Flag(b) => if b then "on" else "off"
    case Missing => ""
  }

  /** What a rule of a host says, apart from the state prepare computes. */
  datatype RuleSpec = RuleSpec(original: string, rewrite: string, skin: Option<string>, skinEnforce: bool)

  /** A host as the CSV sees it: its URL and its rules, in order; aliases are not exported. */
  datatype HostSpec = HostSpec(url: string, rules: seq<RuleSpec>)

  function SkinField(skin: Option<string>): Field
  {
    match skin
    case None => Missing
    case Some(s) => Text(s)
  }

  /** The row export writes for one rule of the host at url. */
  function RuleRow(url: string, r: RuleSpec): seq<string>
  {
    [ToStr(Text(url)), ToStr(Text(r.original)), ToStr(Text(r.rewrite)), ToStr(SkinField(r.skin)), ToStr(Flag(r.skinEnforce))]
  }

  function RuleRows(url: string, rules: seq<RuleSpec>): (rows: seq<seq<string>>)
    ensures |rows| == |rules|
  {
    if rules == [] then [] else [RuleRow(url, rules[0])] + RuleRows(url, rules[1..])
  }

  /** export_csv: one row per rule, host after host. */
  function ExportRows(hosts: seq<HostSpec>): seq<seq<string>>
  {
    if hosts == [] then [] else RuleRows(hosts[0].url, hosts[0].rules) + ExportRows(hosts[1..])
  }

  /** The rows of rules + [r] are those of rules, then the row of r. */
  lemma {:induction false} RuleRowsSnoc(url: string, rules: seq<RuleSpec>, r: RuleSpec)
    ensures RuleRows(url, rules + [r]) == RuleRows(url, rules) + [RuleRow(url, r)]
    decreases |rules|
  {
    if rules == [] {
      assert rules + [r] == [r];
    } else {
      assert (rules + [r])[0] == rules[0] && (rules + [r])[1..] == rules[1..] + [r];
      RuleRowsSnoc(url, rules[1..], r);
    }
  }

  /** The rows of hosts + [h] are those of hosts, then the rows of h. */
  lemma {:induction false} ExportRowsSnoc(hosts: seq<HostSpec>, h: HostSpec)
    ensures ExportRows(hosts + [h]) == ExportRows(hosts) + RuleRows(h.url, h.rules)
    decreases |hosts|
  {
    if hosts == [] {
      assert hosts + [h] == [h];
      assert ExportRows([h]) == RuleRows(h.url, h.rules) + ExportRows([]);
    } else {
      assert (hosts + [h])[0] == hosts[0] && (hosts + [h])[1..] == hosts[1..] + [h];
      ExportRowsSnoc(hosts[1..], h);
    }
  }

  /** The rule a five-field row describes: an empty skin is no skin, and the skin is enforced
      exactly when the last field is "on". */
  function RowRule(row: seq<string>): RuleSpec
    requires |row| == 5
  {
    RuleSpec(row[1], row[2], if row[3] == "" then None else Some(row[3]), row[4] == "on")
  }

  function Flush(current: Option<HostSpec>): seq<HostSpec>
  {
    if current.Some? then [current.value] else []
  }

  /** The import loop from row number line on, with the hosts already closed and the one being
      filled. A row opens a new host when its URL differs from the URL of the current host,
      which is the URL of the row that opened it with its trailing slashes stripped. */
  function Group(rows: seq<seq<string>>, line: nat, done: seq<HostSpec>, current: Option<HostSpec>): Result<seq<HostSpec>>
    decreases |rows|
  {
    if rows == [] then Ok(done + Flush(current))
    else if |rows[0]| != 5 then Err(InvalidOptionCount(line))
    else
      var rule := RowRule(rows[0]);
      if current.None? || rows[0][0] != current.value.url then
        Group(rows[1..], line + 1, done + Flush(current), Some(HostSpec(RStrip(rows[0][0], '/'), [rule])))
      else
        Group(rows[1..], line + 1, done, Some(HostSpec(current.value.url, current.value.rules + [rule])))
  }

  /** The hosts import_csv builds from its rows: each has a rule and a URL without trailing
      slash; the only error is a row without five fields. */
  function GroupRows(rows: seq<seq<string>>): (r: Result<seq<HostSpec>>)
    ensures r.Ok? ==> forall h | h in r.value :: h.rules != [] && RStrip(h.url, '/') == h.url
    ensures r.Err? ==> exists i | 0 <= i < |rows| :: |rows[i]| != 5 && r == Err(InvalidOptionCount(i))
  {
    GroupShape(rows, 0, [], None);
    GroupErrRow(rows, 0, [], None);
    Group(rows, 0, [], None)
  }

  /** The hosts closed by Group have a rule and a URL without trailing slash, as the ones it
      starts from. */
  lemma {:induction false} GroupShape(rows: seq<seq<string>>, line: nat, done: seq<HostSpec>, current: Option<HostSpec>)
    requires forall h | h in done + Flush(current) :: h.rules != [] && RStrip(h.url, '/') == h.url
    ensures Group(rows, line, done, current).Ok? ==>
      forall h | h in Group(rows, line, done, current).value :: h.rules != [] && RStrip(h.url, '/') == h.url
    decreases |rows|
  {
    if rows != [] && |rows[0]| == 5 {
      var rule := RowRule(rows[0]);
      if current.None? || rows[0][0] != current.value.url {
        var next := HostSpec(RStrip(rows[0][0], '/'), [rule]);
        RStripIdempotent(rows[0][0], '/');
        assert forall h | h in done + Flush(current) + Flush(Some(next)) :: h in done + Flush(current) || h == next;
        GroupShape(rows[1..], line + 1, done + Flush(current), Some(next));
      } else {
        var next := HostSpec(current.value.url, current.value.rules + [rule]);
        assert forall h | h in done + Flush(Some(next)) :: h in done || h == next;
        GroupShape(rows[1..], line + 1, done, Some(next));
      }
    }
  }

  /** Group fails only on a row without five fields, and names it. */
  lemma {:induction false} GroupErrRow(rows: seq<seq<string>>, line: nat, done: seq<HostSpec>, current: Option<HostSpec>)
    ensures Group(rows, line, done, current).Err? ==>
      exists i | 0 <= i < |rows| :: |rows[i]| != 5 && Group(rows, line, done, current) == Err(InvalidOptionCount(line + i))
    decreases |rows|
  {
    if rows != [] && |rows[0]| == 5 {
      var rule := RowRule(rows[0]);
      var next :=
        if current.None? || rows[0][0] != current.value.url
        then (done + Flush(current), Some(HostSpec(RStrip(rows[0][0], '/'), [rule])))
        else (done, Some(HostSpec(current.value.url, current.value.rules + [rule])));
      GroupErrRow(rows[1..], line + 1, next.0, next.1);
      var r := Group(rows[1..], line + 1, next.0, next.1);
      if r.Err? {
        var i :| 0 <= i < |rows[1..]| && |rows[1..][i]| != 5 && r == Err(InvalidOptionCount(line + 1 + i));
        assert rows[i + 1] == rows[1..][i];
      }
    }
  }

  /** One row of the import loop, from the point of view of the loop that reads it. */
  lemma GroupNext(rows: seq<seq<string>>, line: nat, done: seq<HostSpec>, current: Option<HostSpec>)
    requires rows != []
    ensures |rows[0]| != 5 ==> Group(rows, line, done, current) == Err(InvalidOptionCount(line))
    ensures |rows[0]| == 5 && (current.None? || rows[0][0] != current.value.url) ==>
      Group(rows, line, done, current) ==
      Group(rows[1..], line + 1, done + Flush(current), Some(HostSpec(RStrip(rows[0][0], '/'), [RowRule(rows[0])])))
    ensures |rows[0]| == 5 && current.Some? && rows[0][0] == current.value.url ==>
      Group(rows, line, done, current) ==
      Group(rows[1..], line + 1, done, Some(HostSpec(current.value.url, current.value.rules + [RowRule(rows[0])])))
  {
  }

  /** The first row without exactly five fields is reported with its number. */
  lemma {:induction false} GroupBadRow(rows: seq<seq<string>>, i: nat, line: nat, done: seq<HostSpec>, current: Option<HostSpec>)
    requires i < |rows| && |rows[i]| != 5
    requires forall k | 0 <= k < i :: |rows[k]| == 5
    ensures Group(rows, line, done, current) == Err(InvalidOptionCount(line + i))
    decreases i
  {
    if i > 0 {
      var rule := RowRule(rows[0]);
      var rest := rows[1..];
      assert forall k | 0 <= k < i - 1 :: |rest[k]| == 5 by {
        forall k | 0 <= k < i - 1 ensures |rest[k]| == 5 { assert rest[k] == rows[k + 1]; }
      }
      if current.None? || rows[0][0] != current.value.url {
        GroupBadRow(rest, i - 1, line + 1, done + Flush(current), Some(HostSpec(RStrip(rows[0][0], '/'), [rule])));
      } else {
        GroupBadRow(rest, i - 1, line + 1, done, Some(HostSpec(current.value.url, current.value.rules + [rule])));
      }
    }
  }

  /** import_csv refuses a row without exactly five fields, naming its (0-based) number. */
  lemma GroupRowsBadRow(rows: seq<seq<string>>, i: nat)
    requires i < |rows| && |rows[i]| != 5
    requires forall k | 0 <= k < i :: |rows[k]| == 5
    ensures GroupRows(rows) == Err(InvalidOptionCount(i))
  {
    GroupBadRow(rows, i, 0, [], None);
  }

  /** Rows with all five fields are always grouped. */
  lemma {:induction false} GroupWellFormed(rows: seq<seq<string>>, line: nat, done: seq<HostSpec>, current: Option<HostSpec>)
    requires forall k | 0 <= k < |rows| :: |rows[k]| == 5
    ensures Group(rows, line, done, current).Ok?
    decreases |rows|
  {
    if rows != [] {
      var rule := RowRule(rows[0]);
      if current.None? || rows[0][0] != current.value.url {
        GroupWellFormed(rows[1..], line + 1, done + Flush(current), Some(HostSpec(RStrip(rows[0][0], '/'), [rule])));
      } else {
        GroupWellFormed(rows[1..], line + 1, done, Some(HostSpec(current.value.url, current.value.rules + [rule])));
      }
    }
  }

  /** A rule survives its row when its skin is not the empty string. */
  lemma RowRuleOfRuleRow(url: string, r: RuleSpec)
    requires r.skin != Some("")
    ensures |RuleRow(url, r)| == 5 && RuleRow(url, r)[0] == url && RowRule(RuleRow(url, r)) == r
  {
  }

  /** Rows carrying the URL of the current host are appended to it, in order. */
  lemma {:induction false} GroupRules(url: string, rules: seq<RuleSpec>, rest: seq<seq<string>>, line: nat,
                                      done: seq<HostSpec>, pre: seq<RuleSpec>)
    requires forall j | 0 <= j < |rules| :: rules[j].skin != Some("")
    ensures Group(RuleRows(url, rules) + rest, line, done, Some(HostSpec(url, pre))) ==
            Group(rest, line + |rules|, done, Some(HostSpec(url, pre + rules)))
    decreases |rules|
  {
    if rules == [] {
      assert RuleRows(url, rules) + rest == rest;
      assert pre + rules == pre;
    } else {
      var rows := RuleRows(url, rules) + rest;
      RowRuleOfRuleRow(url, rules[0]);
      assert rows[0] == RuleRow(url, rules[0]);
      assert rows[1..] == RuleRows(url, rules[1..]) + rest;
      GroupRules(url, rules[1..], rest, line + 1, done, pre + [rules[0]]);
      assert pre + [rules[0]] + rules[1..] == pre + rules;
    }
  }

  /** The rows of one host open it and fill it. */
  lemma GroupHost(h: HostSpec, rest: seq<seq<string>>, line: nat, done: seq<HostSpec>, current: Option<HostSpec>)
    requires h.rules != [] && RStrip(h.url, '/') == h.url
    requires forall j | 0 <= j < |h.rules| :: h.rules[j].skin != Some("")
    requires current.Some? ==> current.value.url != h.url
    ensures Group(RuleRows(h.url, h.rules) + rest, line, done, current) ==
            Group(rest, line + |h.rules|, done + Flush(current), Some(h))
  {
    var rows := RuleRows(h.url, h.rules) + rest;
    RowRuleOfRuleRow(h.url, h.rules[0]);
    assert rows[0] == RuleRow(h.url, h.rules[0]);
    assert rows[1..] == RuleRows(h.url, h.rules[1..]) + rest;
    GroupRules(h.url, h.rules[1..], rest, line + 1, done + Flush(current), [h.rules[0]]);
    assert [h.rules[0]] + h.rules[1..] == h.rules;
  }

  /** The hosts whose export import_csv rebuilds: each has a rule, a URL without trailing
      slash, no empty skin, and a URL different from the host before it. */
  predicate Exportable(hosts: seq<HostSpec>)
  {
    && (forall i | 0 <= i < |hosts| :: hosts[i].rules != [] && RStrip(hosts[i].url, '/') == hosts[i].url)
    && (forall i, j | 0 <= i < |hosts| && 0 <= j < |hosts[i].rules| :: hosts[i].rules[j].skin != Some(""))
    && (forall i | 0 < i < |hosts| :: hosts[i].url != hosts[i - 1].url)
  }

  /** The first host of exportable hosts can be exported on its own, and so can the rest. */
  lemma ExportableCons(hosts: seq<HostSpec>)
    requires Exportable(hosts) && hosts != []
    ensures hosts[0].rules != [] && RStrip(hosts[0].url, '/') == hosts[0].url
    ensures forall j | 0 <= j < |hosts[0].rules| :: hosts[0].rules[j].skin != Some("")
    ensures Exportable(hosts[1..])
    ensures hosts[1..] != [] ==> hosts[1..][0].url != hosts[0].url
  {
    var tail := hosts[1..];
    assert forall i | 0 <= i < |tail| :: tail[i] == hosts[i + 1];
  }

  /** Closing the first host, then adding the rest, adds them all. */
  lemma ClosedThenRest(closed: seq<HostSpec>, hosts: seq<HostSpec>)
    requires hosts != []
    ensures closed + Flush(Some(hosts[0])) + hosts[1..] == closed + hosts
  {
    assert Flush(Some(hosts[0])) + hosts[1..] == hosts;
  }

  /** The rows of the first of exportable hosts open and fill it. */
  lemma GroupExportStep(hosts: seq<HostSpec>, line: nat, done: seq<HostSpec>, current: Option<HostSpec>)
    requires Exportable(hosts) && hosts != []
    requires current.Some? ==> current.value.url != hosts[0].url
    ensures Group(ExportRows(hosts), line, done, current) ==
            Group(ExportRows(hosts[1..]), line + |hosts[0].rules|, done + Flush(current), Some(hosts[0]))
  {
    ExportableCons(hosts);
    assert ExportRows(hosts) == RuleRows(hosts[0].url, hosts[0].rules) + ExportRows(hosts[1..]);
    GroupHost(hosts[0], ExportRows(hosts[1..]), line, done, current);
  }

  /** The rows of exportable hosts group back into those hosts, after the hosts already closed
      and the one being filled. */
  lemma {:induction false} GroupExport(hosts: seq<HostSpec>, line: nat, done: seq<HostSpec>, current: Option<HostSpec>)
    requires Exportable(hosts)
    requires current.Some? && hosts != [] ==> current.value.url != hosts[0].url
    ensures Group(ExportRows(hosts), line, done, current) == Ok(done + Flush(current) + hosts)
    decreases |hosts|
  {
    if hosts == [] {
      assert done + Flush(current) + hosts == done + Flush(current);
    } else {
      GroupExportStep(hosts, line, done, current);
      ExportableCons(hosts);
      GroupExport(hosts[1..], line + |hosts[0].rules|, done + Flush(current), Some(hosts[0]));
      ClosedThenRest(done + Flush(current), hosts);
    }
  }

  /** Importing an export gives back every host that has rules, no alias, no trailing slash,
      no empty skin, and a URL different from its neighbour's. */
  lemma ExportImportRoundTrip(hosts: seq<HostSpec>)
    requires Exportable(hosts)
    ensures GroupRows(ExportRows(hosts)) == Ok(hosts)
  {
    GroupExport(hosts, 0, [], None);
    assert [] + Flush(None) + hosts == hosts;
  }

  /** Every row of a rule has five fields and starts with the host URL. */
  lemma {:induction false} RuleRowsShape(url: string, rules: seq<RuleSpec>)
    ensures forall i | 0 <= i < |RuleRows(url, rules)| :: |RuleRows(url, rules)[i]| == 5 && RuleRows(url, rules)[i][0] == url
    decreases |rules|
  {
    if rules != [] {
      RuleRowsShape(url, rules[1..]);
      var rows := RuleRows(url, rules);
      assert forall i | 1 <= i < |rows| :: rows[i] == RuleRows(url, rules[1..])[i - 1];
    }
  }

  /** Every row export_csv writes has five fields, so import_csv groups the rows of any export,
      whatever the hosts. */
  lemma {:induction false} ExportRowsImport(hosts: seq<HostSpec>)
    ensures forall i | 0 <= i < |ExportRows(hosts)| :: |ExportRows(hosts)[i]| == 5
    ensures GroupRows(ExportRows(hosts)).Ok?
    decreases |hosts|
  {
    if hosts != [] {
      ExportRowsImport(hosts[1..]);
      RuleRowsShape(hosts[0].url, hosts[0].rules);
      var head := RuleRows(hosts[0].url, hosts[0].rules);
      var rows := ExportRows(hosts);
      assert forall i | |head| <= i < |rows| :: rows[i] == ExportRows(hosts[1..])[i - |head|];
    }
    GroupWellFormed(ExportRows(hosts), 0, [], None);
  }

  /** A skin that is the empty string does not survive the round trip: it comes back as None. */
  lemma EmptySkinLost(url: string, r: RuleSpec)
    requires r.skin == Some("")
    ensures RowRule(RuleRow(url, r)) == r.(skin := None)
  {
  }
}
