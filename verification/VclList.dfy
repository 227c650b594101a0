/** Reading the VCL table from the daemon's listing, as text or as JSON objects. */
module VclList {
  import opened Text
  import V = Varnishd

  /** `referenced` is the VCL a label points to. */
  datatype Config = Config(status: string, name: string, state: string, busy: int,
                           isLabel: bool, temperature: string, referenced: Option<string>)

  /** `NoTemperature` is the index error for a second column without a slash. */
  datatype Outcome = Parsed(configs: seq<Config>) | UnknownFormat | NoTemperature

  const ACTIVE := "active"
  const LABEL := "label"

  // ---- The text listing ----

  /** The spaces of `unicode.IsSpace`. */
  predicate IsSpace(c: char) {
    || c == ' ' || '\t' <= c <= '\r' || c == '\U{0085}' || c == '\U{00A0}' || c == '\U{1680}'
    || '\U{2000}' <= c <= '\U{200A}' || c == '\U{2028}' || c == '\U{2029}' || c == '\U{202F}'
    || c == '\U{205F}' || c == '\U{3000}'
  }

  /** `strings.Fields`: the maximal runs of characters that are not space. */
  function Fields(s: string): (r: seq<string>)
    ensures s != "" && !IsSpace(s[0]) ==> r != []
  {
    if s == "" then []
    else if IsSpace(s[0]) then Fields(s[1..])
    else if |s| == 1 || IsSpace(s[1]) then [[s[0]]] + Fields(s[1..])
    else
      var rest := Fields(s[1..]);
      [[s[0]] + rest[0]] + rest[1..]
  }

  /** What the columns of one line add. */
  function FromColumns(columns: seq<string>): Outcome {
    if columns == [] then Parsed([])
    else if |columns| == 4 then
      var temp := Split(columns[1], '/');
      if |temp| < 2 then NoTemperature
      else Parsed([Config(columns[0], columns[3], "", 0, false, temp[1], None)])
    else if |columns| == 6 then
      var temp := Split(columns[1], '/');
      if |temp| < 2 then NoTemperature
      else
        var isLabel := temp[0] == LABEL;
        Parsed([Config(columns[0], columns[3], "", 0, isLabel, temp[1], if isLabel then Some(columns[5]) else None)])
    else UnknownFormat
  }

  function Then(o: Outcome, p: Outcome): Outcome {
    if o.Parsed? && p.Parsed? then Parsed(o.configs + p.configs)
    else if o.Parsed? then p
    else o
  }

  function FromLines(lines: seq<string>): Outcome {
    if lines == [] then Parsed([])
    else Then(FromColumns(Fields(lines[0])), FromLines(lines[1..]))
  }

  function FromText(text: string): Outcome {
    FromLines(Split(text, '\n'))
  }

  lemma ThenAssoc(o: Outcome, p: Outcome, q: Outcome)
    ensures Then(o, Then(p, q)) == Then(Then(o, p), q)
  {
    if o.Parsed? && p.Parsed? && q.Parsed? {
      AppendAssoc(o.configs, p.configs, q.configs);
    }
  }

  lemma {:induction false} FromLinesConcat(a: seq<string>, b: seq<string>)
    ensures FromLines(a + b) == Then(FromLines(a), FromLines(b))
  {
    if a == [] {
      assert a + b == b;
    } else {
      assert (a + b)[1..] == a[1..] + b;
      FromLinesConcat(a[1..], b);
      ThenAssoc(FromColumns(Fields(a[0])), FromLines(a[1..]), FromLines(b));
    }
  }

  lemma {:induction false} NextLine(lines: seq<string>, i: nat, configs: seq<Config>)
    requires i < |lines|
    ensures var first := FromColumns(Fields(lines[i]));
            Then(Parsed(configs), FromLines(lines[i..]))
                  == Then(Then(Parsed(configs), first), FromLines(lines[i + 1..]))
  {
    assert lines[i..][1..] == lines[i + 1..];
    ThenAssoc(Parsed(configs), FromColumns(Fields(lines[i])), FromLines(lines[i + 1..]));
  }

  lemma NothingParsed(o: Outcome)
    ensures Then(Parsed([]), o) == o && Then(o, Parsed([])) == o
  {
    if o.Parsed? {
      assert [] + o.configs == o.configs && o.configs + [] == o.configs;
    }
  }

  /** One line after the other; the first malformed one ends it. */
  method ParseConfigsList(output: string) returns (r: Outcome)
    ensures r == FromText(output)
  {
    var lines := Split(output, '\n');
    var configs: seq<Config> := [];
    NothingParsed(FromLines(lines));
    assert lines[0..] == lines;
    for i := 0 to |lines|
      invariant FromLines(lines) == Then(Parsed(configs), FromLines(lines[i..]))
    {
      var columns := Fields(lines[i]);
      NextLine(lines, i, configs);
      NothingParsed(Parsed(configs));
      if |columns| == 0 {
        continue;
      }
      if |columns| != 4 && |columns| != 6 {
        return UnknownFormat;
      }
      var temp := Split(columns[1], '/');
      if |temp| < 2 {
        return NoTemperature;
      }
      if |columns| == 4 {
        configs := configs + [Config(columns[0], columns[3], "", 0, false, temp[1], None)];
      } else {
        var isLabel := temp[0] == LABEL;
        var ref := if isLabel then Some(columns[5]) else None;
        configs := configs + [Config(columns[0], columns[3], "", 0, isLabel, temp[1], ref)];
      }
    }
    assert lines[|lines|..] == [];
    NothingParsed(Parsed(configs));
    return Parsed(configs);
  }

  // ---- The table, and the listings that show it ----

  /** A VCL, one that labels point to, and a label. */
  datatype Row =
    | Plain(status: string, state: string, temperature: string, busy: nat, name: string)
    | Labelled(status: string, state: string, temperature: string, busy: nat, name: string, labels: nat)
    | Label(status: string, temperature: string, busy: nat, name: string, target: string)

  predicate IsWord(w: string) {
    w != "" && forall c <- w :: !IsSpace(c)
  }

  predicate IsPlainWord(w: string) {
    IsWord(w) && '/' !in w
  }

  predicate IsRow(row: Row) {
    && IsPlainWord(row.status) && IsPlainWord(row.temperature) && IsWord(row.name)
    && (if row.Label? then IsWord(row.target) else IsPlainWord(row.state) && row.state != "label")
  }

  function Columns(row: Row): seq<string> {
    match row
    case Plain(status, state, temperature, busy, name) =>
      [status, state + ['/'] + temperature, Decimal(busy), name]
    case Labelled(status, state, temperature, busy, name, labels) =>
      [status, state + ['/'] + temperature, Decimal(busy), name,
       ['('] + Decimal(labels), if labels == 1 then "label)" else "labels)"]
    case Label(status, temperature, busy, name, target) =>
      [status, "label" + ['/'] + temperature, Decimal(busy), name, "->", target]
  }

  /** A line of the listing: the columns of a row with space around them, or only space. */
  datatype Line = Blank(space: string) | Shown(row: Row, gaps: seq<string>)

  predicate IsGap(s: string) {
    forall c <- s :: IsSpace(c) && c != '\n'
  }

  predicate Separates(gaps: seq<string>, n: nat) {
    && |gaps| == n + 1
    && (forall g <- gaps :: IsGap(g))
    && forall i :: 0 < i < n ==> gaps[i] != ""
  }

  predicate IsLine(line: Line) {
    if line.Blank? then IsGap(line.space)
    else IsRow(line.row) && Separates(line.gaps, |Columns(line.row)|)
  }

  function Spaced(gaps: seq<string>, columns: seq<string>): string
    requires |gaps| == |columns| + 1
  {
    if columns == [] then gaps[0] else gaps[0] + (columns[0] + Spaced(gaps[1..], columns[1..]))
  }

  function LineText(line: Line): string
    requires IsLine(line)
  {
    if line.Blank? then line.space else Spaced(line.gaps, Columns(line.row))
  }

  /** The lines with newlines between them; a last blank line makes a final newline. */
  function Listing(lines: seq<Line>): string
    requires forall l <- lines :: IsLine(l)
  {
    if lines == [] then ""
    else if |lines| == 1 then LineText(lines[0])
    else LineText(lines[0]) + ['\n'] + Listing(lines[1..])
  }

  function Rows(lines: seq<Line>): seq<Row> {
    if lines == [] then [] else (if lines[0].Shown? then [lines[0].row] else []) + Rows(lines[1..])
  }

  /** What the controller needs of a row; the text listing leaves out the rest. */
  function Essence(row: Row): Config {
    Config(row.status, row.name, "", 0, row.Label?, row.temperature, if row.Label? then Some(row.target) else None)
  }

  function Essences(rows: seq<Row>): seq<Config> {
    seq(|rows|, i requires 0 <= i < |rows| => Essence(rows[i]))
  }

  // ---- The text gives the table back ----

  lemma {:induction false} FieldsSkipGap(gap: string, s: string)
    requires forall c <- gap :: IsSpace(c)
    ensures Fields(gap + s) == Fields(s)
  {
    if gap == "" {
      assert gap + s == s;
    } else {
      assert (gap + s)[1..] == gap[1..] + s;
      FieldsSkipGap(gap[1..], s);
    }
  }

  lemma {:induction false} FieldsTakeWord(w: string, s: string)
    requires IsWord(w) && (s == "" || IsSpace(s[0]))
    ensures Fields(w + s) == [w] + Fields(s)
  {
    assert (w + s)[1..] == w[1..] + s && w[0] in w;
    if |w| == 1 {
      assert w[1..] + s == s && w == [w[0]];
    } else {
      FieldsTakeWord(w[1..], s);
      assert w[1] in w && (w + s)[1] == w[1];
      assert w == [w[0]] + w[1..];
    }
  }

  lemma {:induction false} FieldsOfSpaced(gaps: seq<string>, columns: seq<string>)
    requires forall w <- columns :: IsWord(w)
    requires Separates(gaps, |columns|)
    ensures Fields(Spaced(gaps, columns)) == columns
  {
    assert gaps[0] in gaps;
    if columns == [] {
      FieldsSkipGap(gaps[0], "");
      assert gaps[0] + "" == gaps[0];
    } else {
      var rest := Spaced(gaps[1..], columns[1..]);
      FieldsSkipGap(gaps[0], columns[0] + rest);
      assert gaps[1] in gaps;
      assert gaps[1][..] == gaps[1];
      FieldsTakeWord(columns[0], rest);
      FieldsOfSpaced(gaps[1..], columns[1..]);
    }
  }

  lemma {:induction false} SpacedIsOneLine(gaps: seq<string>, columns: seq<string>)
    requires forall w <- columns :: IsWord(w)
    requires Separates(gaps, |columns|)
    ensures '\n' !in Spaced(gaps, columns)
  {
    assert gaps[0] in gaps;
    if columns != [] {
      assert columns[0] in columns;
      SpacedIsOneLine(gaps[1..], columns[1..]);
    }
  }

  lemma {:induction false} DecimalIsWord(n: nat)
    ensures IsWord(Decimal(n))
  {
  }

  lemma JoinIsWord(a: string, b: string)
    requires IsWord(a) && IsWord(b)
    ensures IsWord(a + ['/'] + b)
  {
  }

  lemma {:induction false} ColumnsAreWords(row: Row)
    requires IsRow(row)
    ensures forall w <- Columns(row) :: IsWord(w)
  {
    DecimalIsWord(row.busy);
    match row
    case Plain(_, state, temperature, _, _) =>
      JoinIsWord(state, temperature);
    case Labelled(_, state, temperature, _, _, labels) =>
      JoinIsWord(state, temperature);
      DecimalIsWord(labels);
    case Label(_, temperature, _, _, _) =>
      JoinIsWord(LABEL, temperature);
  }

  lemma {:induction false} TemperatureColumn(state: string, temperature: string)
    requires '/' !in state && '/' !in temperature
    ensures Split(state + ['/'] + temperature, '/') == [state, temperature]
  {
    SplitConcat(state, temperature, '/');
    SplitWithoutSeparator(state, '/');
    SplitWithoutSeparator(temperature, '/');
  }

  lemma {:induction false} ColumnsGiveRow(row: Row)
    requires IsRow(row)
    ensures FromColumns(Columns(row)) == Parsed([Essence(row)])
  {
    match row
    case Plain(_, state, temperature, _, _) => TemperatureColumn(state, temperature);
    case Labelled(_, state, temperature, _, _, _) => TemperatureColumn(state, temperature);
    case Label(_, temperature, _, _, _) => TemperatureColumn(LABEL, temperature);
  }

  lemma {:induction false} LineGivesRow(line: Line)
    requires IsLine(line)
    ensures '\n' !in LineText(line)
    ensures FromColumns(Fields(LineText(line))) == Parsed(Essences(Rows([line])))
  {
    if line.Blank? {
      FieldsSkipGap(line.space, "");
      assert line.space + "" == line.space;
    } else {
      ColumnsAreWords(line.row);
      FieldsOfSpaced(line.gaps, Columns(line.row));
      SpacedIsOneLine(line.gaps, Columns(line.row));
      ColumnsGiveRow(line.row);
      assert Rows([line]) == [line.row];
      assert Essences([line.row]) == [Essence(line.row)];
    }
  }

  /** For every table, in any spacing and with blank lines anywhere, parsing the listing
      gives back the statuses, names, temperatures and label targets, in order. */
  lemma {:induction false} ListingRoundTrip(lines: seq<Line>)
    requires forall l <- lines :: IsLine(l)
    ensures FromText(Listing(lines)) == Parsed(Essences(Rows(lines)))
  {
    if lines == [] {
      OneLine("");
    } else {
      var first := LineText(lines[0]);
      LineGivesRow(lines[0]);
      if |lines| == 1 {
        assert lines == [lines[0]];
        OneLine(first);
      } else {
        FirstLine(first, Listing(lines[1..]));
        ListingRoundTrip(lines[1..]);
        EssencesConcat(Rows([lines[0]]), Rows(lines[1..]));
        RowsOfHead(lines);
      }
    }
  }

  lemma {:induction false} RowsOfHead(lines: seq<Line>)
    requires lines != []
    ensures Rows(lines) == Rows([lines[0]]) + Rows(lines[1..])
  {
    assert Rows([lines[0]][1..]) == [];
  }

  lemma {:induction false} FirstLine(first: string, rest: string)
    requires '\n' !in first
    ensures FromText(first + ['\n'] + rest) == Then(FromColumns(Fields(first)), FromText(rest))
  {
    SplitWithoutSeparator(first, '\n');
    SplitConcat(first, rest, '\n');
    FromLinesConcat([first], Split(rest, '\n'));
    OneLine(first);
  }

  lemma {:induction false} OneLine(line: string)
    requires '\n' !in line
    ensures FromLines([line]) == FromColumns(Fields(line)) == FromText(line)
  {
    SplitWithoutSeparator(line, '\n');
    assert FromLines([line][1..]) == Parsed([]);
  }

  lemma EssencesConcat(a: seq<Row>, b: seq<Row>)
    ensures Essences(a + b) == Essences(a) + Essences(b)
  {
  }

  predicate WellFormed(columns: seq<string>) {
    columns == [] || ((|columns| == 4 || |columns| == 6) && '/' in columns[1])
  }

  lemma {:induction false} SplitFindsSeparator(s: string, sep: char)
    ensures |Split(s, sep)| >= 2 <==> sep in s
  {
    if s != "" && s[0] != sep {
      SplitFindsSeparator(s[1..], sep);
      assert s == [s[0]] + s[1..];
    }
  }

  lemma {:induction false} WellFormedIff(columns: seq<string>)
    ensures FromColumns(columns).Parsed? <==> WellFormed(columns)
  {
    if |columns| >= 2 {
      SplitFindsSeparator(columns[1], '/');
    }
  }

  /** A listing is refused exactly if some line has neither no, four nor six columns, or
      has no slash in its second column. */
  lemma {:induction false} ParsedIff(lines: seq<string>)
    ensures FromLines(lines).Parsed? <==> forall l <- lines :: WellFormed(Fields(l))
  {
    if lines != [] {
      WellFormedIff(Fields(lines[0]));
      ParsedIff(lines[1..]);
      assert lines[0] in lines;
      assert forall l :: l in lines ==> l == lines[0] || l in lines[1..];
      assert forall l :: l in lines[1..] ==> l in lines;
    }
  }

  /** Four or six columns, of which the second has no slash. */
  predicate Crashes(columns: seq<string>) {
    (|columns| == 4 || |columns| == 6) && '/' !in columns[1]
  }

  ghost predicate CrashesAt(lines: seq<string>, k: nat) {
    && k < |lines| && Crashes(Fields(lines[k]))
    && forall i :: 0 <= i < k ==> WellFormed(Fields(lines[i]))
  }

  lemma {:induction false} CrashesIff(columns: seq<string>)
    ensures FromColumns(columns) == NoTemperature <==> Crashes(columns)
  {
    if |columns| >= 2 {
      SplitFindsSeparator(columns[1], '/');
    }
  }

  /** The parser indexes out of range exactly if some line has four or six columns and no
      slash in the second, and every line before is well-formed. */
  lemma {:induction false} NoTemperatureIff(lines: seq<string>)
    ensures FromLines(lines) == NoTemperature <==> exists k: nat :: CrashesAt(lines, k)
  {
    if lines != [] {
      var columns := Fields(lines[0]);
      WellFormedIff(columns);
      CrashesIff(columns);
      NoTemperatureIff(lines[1..]);
      if k: nat :| CrashesAt(lines[1..], k) && WellFormed(columns) {
        assert CrashesAt(lines, k + 1);
      }
      if Crashes(columns) {
        assert CrashesAt(lines, 0);
      }
      if k: nat :| CrashesAt(lines, k) && k > 0 {
        assert WellFormed(Fields(lines[0]));
        assert CrashesAt(lines[1..], k - 1);
      }
    }
  }

  // ---- The JSON listing ----

  /** A member of a JSON object as the parser can meet it. */
  datatype Json = Missing | String(text: string) | Number(value: real) | Other

  datatype LabelJson = NoLabel | Object(name: Json) | NoObject

  datatype VclObject = VclObject(name: Json, status: Json, temperature: Json, state: Json,
                                 busy: Json, target: LabelJson)

  /** Conversion of a float to an integer drops the fraction. */
  function Truncated(x: real): (r: int)
    ensures x >= 0.0 ==> r as real <= x < r as real + 1.0
    ensures x < 0.0 ==> r as real - 1.0 < x <= r as real
  {
    if x >= 0.0 then x.Floor else -((-x).Floor)
  }

  /** Some member that is needed is missing or of another type; a label is optional, but
      one that is there needs a name. */
  predicate IsMalformed(o: VclObject) {
    || !o.name.String? || !o.status.String? || !o.temperature.String? || !o.state.String? || !o.busy.Number?
    || (o.target.Object? && !o.target.name.String?)
    || o.target.NoObject?
  }

  /** `c` is read from the well-formed object `o`: a label exactly if there is a target. */
  predicate ReadsAs(o: VclObject, c: Config) {
    && o.name == String(c.name) && o.status == String(c.status)
    && o.temperature == String(c.temperature) && o.state == String(c.state)
    && o.busy.Number? && c.busy == Truncated(o.busy.value)
    && (c.isLabel <==> o.target != NoLabel)
    && (if c.isLabel then c.referenced.Some? && o.target == Object(String(c.referenced.value))
        else c.referenced == None)
  }

  /** The configurations are read from the objects, in order. */
  ghost predicate AllReadAs(os: seq<VclObject>, configs: seq<Config>) {
    |os| == |configs| && forall i :: 0 <= i < |os| ==> ReadsAs(os[i], configs[i])
  }

  /** The fields are checked and filled one after the other. */
  method ParseVclFromMap(o: VclObject) returns (r: Option<Config>)
    ensures r.None? <==> IsMalformed(o)
    ensures r.Some? ==> ReadsAs(o, r.value)
  {
    if !o.name.String? || !o.status.String? || !o.temperature.String? || !o.state.String? || !o.busy.Number? {
      return None;
    }
    var vcl := Config(o.status.text, o.name.text, o.state.text, Truncated(o.busy.value),
                      false, o.temperature.text, None);
    if !o.target.NoLabel? {
      if !o.target.Object? || !o.target.name.String? {
        return None;
      }
      vcl := vcl.(isLabel := true, referenced := Some(o.target.name.text));
    }
    return Some(vcl);
  }

  /** The loop over the objects of the listing; the first malformed one ends it. */
  method ParseVcls(os: seq<VclObject>) returns (r: Option<seq<Config>>)
    ensures r.None? <==> exists o <- os :: IsMalformed(o)
    ensures r.Some? ==> AllReadAs(os, r.value)
  {
    var vcls: seq<Config> := [];
    for i := 0 to |os|
      invariant AllReadAs(os[..i], vcls)
      invariant forall k :: 0 <= k < i ==> !IsMalformed(os[k])
    {
      var vcl := ParseVclFromMap(os[i]);
      if vcl.None? {
        assert os[i] in os;
        return None;
      }
      vcls := vcls + [vcl.value];
    }
    assert os[..|os|] == os;
    return Some(vcls);
  }

  /** The object that shows a row. */
  function ObjectOf(row: Row): VclObject {
    VclObject(String(row.name), String(row.status), String(row.temperature),
              String(if row.Label? then "label" else row.state), Number(row.busy as real),
              if row.Label? then Object(String(row.target)) else NoLabel)
  }

  function Objects(rows: seq<Row>): seq<VclObject> {
    seq(|rows|, i requires 0 <= i < |rows| => ObjectOf(rows[i]))
  }

  /** Without what only the JSON listing shows. */
  function Reduced(configs: seq<Config>): seq<Config> {
    seq(|configs|, i requires 0 <= i < |configs| => configs[i].(state := "", busy := 0))
  }

  lemma ObjectReadsAs(row: Row, c: Config)
    requires ReadsAs(ObjectOf(row), c)
    ensures c.(state := "", busy := 0) == Essence(row)
  {
  }

  /** The JSON listing of a table parses, and whatever is read from it agrees with the text
      listing. */
  lemma {:induction false} RoutesAgree(rows: seq<Row>, configs: seq<Config>)
    requires AllReadAs(Objects(rows), configs)
    ensures forall o <- Objects(rows) :: !IsMalformed(o)
    ensures Reduced(configs) == Essences(rows)
  {
    forall i | 0 <= i < |rows|
      ensures Reduced(configs)[i] == Essences(rows)[i]
    {
      assert ReadsAs(Objects(rows)[i], configs[i]);
      ObjectReadsAs(rows[i], configs[i]);
    }
  }

  // ---- The active VCL ----

  function ActiveName(configs: seq<Config>): Option<string> {
    if configs == [] then None
    else if configs[0].status == ACTIVE then Some(configs[0].name)
    else ActiveName(configs[1..])
  }

  method GetActiveVclConfig(configs: seq<Config>) returns (r: Option<Config>)
    ensures r.None? <==> forall c <- configs :: c.status != ACTIVE
    ensures r.Some? ==> r.value in configs && r.value.status == ACTIVE && ActiveName(configs) == Some(r.value.name)
  {
    for i := 0 to |configs|
      invariant forall k :: 0 <= k < i ==> configs[k].status != ACTIVE
      invariant ActiveName(configs) == ActiveName(configs[i..])
    {
      if configs[i].status == ACTIVE {
        assert configs[i] in configs;
        return Some(configs[i]);
      }
    }
    return None;
  }

  lemma {:induction false} ReducedKeepsActive(configs: seq<Config>)
    ensures ActiveName(Reduced(configs)) == ActiveName(configs)
  {
    if configs != [] {
      assert Reduced(configs)[1..] == Reduced(configs[1..]);
      ReducedKeepsActive(configs[1..]);
    }
  }

  /** Both listings of a table name the same active VCL. */
  lemma {:induction false} ActiveNameAgrees(lines: seq<Line>, json: seq<Config>)
    requires forall l <- lines :: IsLine(l)
    requires AllReadAs(Objects(Rows(lines)), json)
    ensures var text := FromText(Listing(lines)); text.Parsed? && ActiveName(text.configs) == ActiveName(json)
  {
    ListingRoundTrip(lines);
    RoutesAgree(Rows(lines), json);
    ReducedKeepsActive(json);
  }

  // ---- The table of the daemon ----

  function StatusText(s: V.Status): string {
    match s
    case Active => "active"
    case Available => "available"
    case Discarded => "discarded"
  }

  /** The rows show every VCL of the table with its status, and labels besides. */
  ghost predicate ShowsTable(rows: seq<Row>, t: V.Table) {
    && (forall r <- rows ::
          if r.Label? then r.status == "available" else r.name in t && r.status == StatusText(t[r.name].status))
    && (forall n <- t :: exists r <- rows :: !r.Label? && r.name == n)
  }

  lemma {:induction false} FirstActive(configs: seq<Config>, name: string)
    requires forall c <- configs :: c.status == "active" ==> c.name == name
    requires exists c <- configs :: c.status == "active"
    ensures ActiveName(configs) == Some(name)
  {
    if configs[0].status != "active" {
      assert configs == [configs[0]] + configs[1..];
      FirstActive(configs[1..], name);
    } else {
      assert configs[0] in configs;
    }
  }

  lemma StatusTextIff(s: V.Status)
    ensures StatusText(s) == "active" <==> s == V.Active
  {
    assert "active"[1] == 'c' && "available"[1] == 'v' && "discarded"[1] == 'i';
  }

  lemma {:induction false} ActiveEssence(rows: seq<Row>, t: V.Table)
    requires V.OneActive(t) && ShowsTable(rows, t)
    ensures ActiveName(Essences(rows)) == Some(V.ActiveName(t))
  {
    var configs, name := Essences(rows), V.ActiveName(t);
    forall c | c in configs && c.status == "active"
      ensures c.name == name
    {
      var i :| 0 <= i < |rows| && configs[i] == c;
      assert rows[i] in rows && c == Essence(rows[i]);
      StatusTextIff(V.Available);
      StatusTextIff(t[c.name].status);
      assert V.IsActive(t, c.name);
    }
    var r :| r in rows && !r.Label? && r.name == name;
    var i :| 0 <= i < |rows| && rows[i] == r;
    StatusTextIff(t[name].status);
    assert configs[i].status == "active" && configs[i] in configs;
    FirstActive(configs, name);
  }

  /** From either listing of a table with one active VCL, that VCL is found. */
  lemma {:induction false} ActiveIsListed(lines: seq<Line>, json: seq<Config>, t: V.Table)
    requires forall l <- lines :: IsLine(l)
    requires V.OneActive(t) && ShowsTable(Rows(lines), t) && AllReadAs(Objects(Rows(lines)), json)
    ensures FromText(Listing(lines)).Parsed?
    ensures ActiveName(FromText(Listing(lines)).configs) == ActiveName(json) == Some(V.ActiveName(t))
  {
    ListingRoundTrip(lines);
    ActiveNameAgrees(lines, json);
    ActiveEssence(Rows(lines), t);
  }
}
