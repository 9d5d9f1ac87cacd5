/** Reading a GRDECL deck with its includes: which files are visited, and what is
    remembered of them, over any include graph. */
module GrdeclDecks {
  import opened Wrappers
  import opened GrdeclTokens
  import opened GrdeclArrays

  /** What the deck lives in: file contents by asset identifier, if they open; the
      resolver of include names, which may throw; and the parsing of floating-point
      numbers. */
  datatype World = World(
    content: string -> Option<string>, resolve: (string, string) -> Result<string>, number: string -> Option<real>)

  datatype ArrayRef = ArrayRef(keyword: string, file: string, integer: bool)

  datatype GridInfo = GridInfo(
    dims: Option<(int, int, int)>, coord: Option<ArrayRef>, zcorn: Option<ArrayRef>, actnum: Option<ArrayRef>,
    mapAxes: seq<real>, lengthUnit: string, properties: map<string, ArrayRef>)

  /** The state of a parse. `readFiles` and `includes` record what happened: the files
      in the order their tokens were read, and who included whom. */
  datatype ParseState = ParseState(
    grid: GridInfo, visitedFiles: set<string>, readFiles: seq<string>, includes: seq<(string, string)>)

  const STOP_KEYWORDS: set<string> := {"SOLUTION", "SUMMARY", "SCHEDULE", "END"}

  const FIELD_KEYWORDS: set<string> := {"FIELD", "FIELD_US", "FIELD_USA"}

  const NO_DATA_KEYWORDS: set<string> := {
    "RUNSPEC", "GRID", "EDIT", "PROPS", "REGIONS", "OIL", "WATER", "GAS",
    "DISGAS", "VAPOIL", "METRIC", "FIELD", "FIELD_US", "FIELD_USA", "LAB", "INIT",
    "NOECHO", "ECHO", "NEWTRAN", "OLDTRAN", "UNIFIN", "UNIFOUT", "NOSIM"}

  const BLOCK_KEYWORDS: set<string> := {"ADD", "COPY", "EQUALS", "MULTIPLY", "FAULTS", "MULTFLT", "MULTREGT"}

  const DOUBLE_PROPERTIES: set<string> := {
    "PORO", "PERMX", "PERMY", "PERMZ", "NTG", "SWATINIT", "SWCR", "SWL",
    "SWU", "SGL", "SGCR", "SGU", "SOGCR", "SOWCR", "ISGCR"}

  const INT_PROPERTIES: set<string> := {"EQLNUM", "FIPNUM", "FLUXNUM", "SATNUM", "IMBNUM", "PVTNUM", "ROCKNUM"}

  // -------------------------------------------------------------- records

  /** The tokens up to a slash, and those behind it. */
  function Record(tokens: seq<Token>): (r: (seq<Token>, seq<Token>))
    ensures |r.1| <= |tokens| && r.1 == tokens[|tokens| - |r.1|..]
    ensures r.0 <= tokens && forall k :: 0 <= k < |r.0| ==> r.0[k].text != "/"
  {
    if tokens == [] then ([], [])
    else if tokens[0].text == "/" then ([], tokens[1..])
    else
      var (record, rest) := Record(tokens[1..]);
      ([tokens[0]] + record, rest)
  }

  /** Behind a block of records, which an empty record ends. */
  function BehindBlock(tokens: seq<Token>, sawValueSinceSlash: bool): (r: seq<Token>)
    ensures |r| <= |tokens| && r == tokens[|tokens| - |r|..]
  {
    if tokens == [] then []
    else if tokens[0].text == "/" then
      if sawValueSinceSlash then BehindBlock(tokens[1..], false) else tokens[1..]
    else BehindBlock(tokens[1..], true)
  }

  function WithDims(record: seq<Token>, grid: GridInfo): Result<GridInfo> {
    if |record| < 3 then Ok(grid)
    else
      match (ParseInt(record[0].text), ParseInt(record[1].text), ParseInt(record[2].text))
      case (Some(nx), Some(ny), Some(nz)) =>
        if nx <= 0 || ny <= 0 || nz <= 0 then Throws else Ok(grid.(dims := Some((nx, ny, nz))))
      case _ => Throws
  }

  /** The numbers of a token: one, or a run of equal ones. */
  function Numbers(world: World, token: string): Option<seq<real>> {
    match FindStar(token)
    case None => (
      match world.number(token)
      case Some(value) => Some([value])
      case None => None
    )
    case Some(star) => (
      var payload := token[star + 1..];
      match (ParseSize(token[..star]), if payload == "" then Some(0.0) else world.number(payload))
      case (Some(repeat), Some(value)) => Some(seq(repeat, _ => value))
      case _ => None
    )
  }

  function AllNumbers(world: World, record: seq<Token>): Result<seq<real>> {
    if record == [] then Ok([])
    else
      match Numbers(world, record[0].text)
      case None => Throws
      case Some(head) =>
        var tail :- AllNumbers(world, record[1..]);
        Ok(head + tail)
  }

  function WithMapAxes(world: World, record: seq<Token>, grid: GridInfo): Result<GridInfo> {
    var values :- AllNumbers(world, record);
    Ok(if |values| >= 6 then grid.(mapAxes := values[..6]) else grid)
  }

  function TrimmedRight(s: string): string {
    if s == "" || !Space(s[|s| - 1]) then s else TrimmedRight(s[..|s| - 1])
  }

  function WithGridUnit(record: seq<Token>, grid: GridInfo): GridInfo {
    if record == [] then grid
    else
      var text := TrimmedRight(record[0].text);
      var unit := ToUpper(text);
      grid.(lengthUnit :=
        if unit in {"METRES", "METERS", "METRIC", "M"} then "m"
        else if unit in {"FEET", "FIELD", "FT"} then "ft"
        else if unit in {"CM", "CENTIMETRES", "CENTIMETERS"} then "cm"
        else text)
  }

  // ---------------------------------------------------------- one keyword

  /** Keywords of which a record is read; the rest of the record comes with it. */
  datatype Effect =
    | Stop
    | Nothing
    | Unit(unit: string)
    | Include
    | Dims
    | MapAxes
    | GridUnit
    | Remember(integer: bool)
    | SkipBlock
    | SkipRecord

  function EffectOf(keyword: string): Effect {
    if keyword in STOP_KEYWORDS then Stop
    else if keyword == "METRIC" then Unit("m")
    else if keyword in FIELD_KEYWORDS then Unit("ft")
    else if keyword in NO_DATA_KEYWORDS then Nothing
    else if keyword == "INCLUDE" then Include
    else if keyword == "DIMENS" || keyword == "SPECGRID" then Dims
    else if keyword == "MAPAXES" then MapAxes
    else if keyword == "GRIDUNIT" || keyword == "MAPUNITS" then GridUnit
    else if keyword == "COORD" || keyword == "ZCORN" then Remember(false)
    else if keyword == "ACTNUM" || keyword in INT_PROPERTIES then Remember(true)
    else if keyword in DOUBLE_PROPERTIES then Remember(false)
    else if keyword in BLOCK_KEYWORDS then SkipBlock
    else SkipRecord
  }

  function Remembered(grid: GridInfo, ref: ArrayRef): GridInfo {
    if ref.keyword == "COORD" then grid.(coord := Some(ref))
    else if ref.keyword == "ZCORN" then grid.(zcorn := Some(ref))
    else if ref.keyword == "ACTNUM" then grid.(actnum := Some(ref))
    else grid.(properties := grid.properties[ref.keyword := ref])
  }

  /** The grid after a keyword that is no include, read in a file. */
  function Applied(world: World, file: string, keyword: string, record: seq<Token>, grid: GridInfo): Result<GridInfo> {
    match EffectOf(keyword)
    case Unit(unit) => Ok(grid.(lengthUnit := unit))
    case Dims => WithDims(record, grid)
    case MapAxes => WithMapAxes(world, record, grid)
    case GridUnit => Ok(WithGridUnit(record, grid))
    case Remember(integer) => Ok(Remembered(grid, ArrayRef(keyword, file, integer)))
    case _ => Ok(grid)
  }

  /** The tokens that remain behind a keyword and what belongs to it. */
  function Behind(keyword: string, tokens: seq<Token>): (r: seq<Token>)
    ensures |r| <= |tokens|
  {
    match EffectOf(keyword)
    case Stop => []
    case Nothing => tokens
    case Unit(_) => tokens
    case SkipBlock => BehindBlock(tokens, false)
    case _ => Record(tokens).1
  }

  // --------------------------------------------------------- specification

  const MAX_DEPTH: nat := 64

  /** The state after a keyword and what belongs to it. */
  function AfterKeyword(
      world: World, file: string, keyword: string, rest: seq<Token>, s: ParseState, depth: nat): Result<ParseState>
    requires depth <= MAX_DEPTH
    decreases MAX_DEPTH + 1 - depth, 0, 0, 1
  {
    if EffectOf(keyword).Include? then Included(world, file, Record(rest).0, s, depth)
    else Read(world, file, keyword, Record(rest).0, s)
  }

  /** Reads the tokens of a file, from some of them on. */
  function ParseTokens(world: World, file: string, tokens: seq<Token>, s: ParseState, depth: nat): Result<ParseState>
    requires depth <= MAX_DEPTH
    decreases MAX_DEPTH + 1 - depth, 0, |tokens|
  {
    if tokens == [] then Ok(s)
    else if tokens[0].text == "/" then ParseTokens(world, file, tokens[1..], s, depth)
    else
      var keyword, rest := ToUpper(tokens[0].text), tokens[1..];
      var after :- AfterKeyword(world, file, keyword, rest, s, depth);
      ParseTokens(world, file, Behind(keyword, rest), after, depth)
  }

  function Read(world: World, file: string, keyword: string, record: seq<Token>, s: ParseState): Result<ParseState> {
    var grid :- Applied(world, file, keyword, record, s.grid);
    Ok(s.(grid := grid))
  }

  /** An include: the file that the first token of its record names, if there is one. */
  function Included(world: World, file: string, record: seq<Token>, s: ParseState, depth: nat): Result<ParseState>
    requires depth <= MAX_DEPTH
    decreases MAX_DEPTH + 1 - depth, 0, 0, 0
  {
    if record == [] then Ok(s)
    else
      var target :- world.resolve(file, record[0].text);
      ParseFile(world, target, s.(includes := s.includes + [(file, target)]), depth + 1)
  }

  function Opened(s: ParseState, file: string): ParseState {
    s.(visitedFiles := s.visitedFiles + {file}, readFiles := s.readFiles + [file])
  }

  function ParseFile(world: World, file: string, s: ParseState, depth: nat): Result<ParseState>
    requires depth <= MAX_DEPTH + 1
    decreases MAX_DEPTH + 1 - depth, 1, 0
  {
    if depth > MAX_DEPTH then Throws
    else if file in s.visitedFiles then Ok(s)
    else
      match world.content(file)
      case None => Throws
      case Some(text) =>
        ParseTokens(world, file, Tokens(text), Opened(s, file), depth)
  }

  // ----------------------------------------------- what a parse has done

  ghost predicate NoDuplicates(files: seq<string>) {
    forall i, j :: 0 <= i < j < |files| ==> files[i] != files[j]
  }

  /** The tokens of a visited file were read exactly once. */
  ghost predicate ReadOnce(s: ParseState) {
    NoDuplicates(s.readFiles) && forall f :: f in s.visitedFiles <==> f in s.readFiles
  }

  /** File `a` has an INCLUDE whose record names `b`. */
  ghost predicate NamesInclude(world: World, a: string, b: string) {
    && world.content(a).Some?
    && var tokens := Tokens(world.content(a).value);
       exists j: nat :: IncludeAt(world, tokens, a, b, j)
  }

  ghost predicate IncludeAt(world: World, tokens: seq<Token>, a: string, b: string, j: nat) {
    && j + 1 < |tokens| && ToUpper(tokens[j].text) == "INCLUDE" && tokens[j + 1].text != "/"
    && world.resolve(a, tokens[j + 1].text) == Ok(b)
  }

  ghost function Refs(grid: GridInfo): set<ArrayRef> {
    (if grid.coord.Some? then {grid.coord.value} else {}) +
    (if grid.zcorn.Some? then {grid.zcorn.value} else {}) +
    (if grid.actnum.Some? then {grid.actnum.value} else {}) +
    grid.properties.Values
  }

  /** The file of a remembered array was visited, and has its keyword. */
  ghost predicate RefOk(world: World, visited: set<string>, ref: ArrayRef) {
    && ref.file in visited && world.content(ref.file).Some?
    && HasKeyword(Tokens(world.content(ref.file).value), ref.keyword)
  }

  /** Each array is remembered under its own keyword, and as integers exactly if the
      keyword is one of integers. */
  ghost predicate SlotsOk(grid: GridInfo) {
    && (grid.coord.Some? ==> grid.coord.value.keyword == "COORD" && !grid.coord.value.integer)
    && (grid.zcorn.Some? ==> grid.zcorn.value.keyword == "ZCORN" && !grid.zcorn.value.integer)
    && (grid.actnum.Some? ==> grid.actnum.value.keyword == "ACTNUM" && grid.actnum.value.integer)
    && forall k :: k in grid.properties ==> PropertyOk(k, grid.properties[k])
  }

  predicate PropertyOk(keyword: string, ref: ArrayRef) {
    ref.keyword == keyword && (if ref.integer then keyword in INT_PROPERTIES else keyword in DOUBLE_PROPERTIES)
  }

  ghost predicate HasKeyword(tokens: seq<Token>, keyword: string) {
    exists j :: 0 <= j < |tokens| && ToUpper(tokens[j].text) == keyword
  }

  /** Files that hold the ones visited before, and with a file those it newly included,
      hold all that are visited after. */
  ghost predicate OnlyReached(s: ParseState, t: ParseState) {
    forall files: set<string> :: s.visitedFiles <= files && ClosedUnder(files, t.includes, |s.includes|) ==>
      t.visitedFiles <= files
  }

  ghost predicate ClosedUnder(files: set<string>, includes: seq<(string, string)>, from: nat) {
    forall k :: from <= k < |includes| && includes[k].0 in files ==> includes[k].1 in files
  }

  /** All of the above, from one state of a parse to a later one. */
  ghost predicate Advances(world: World, s: ParseState, t: ParseState) {
    && s.visitedFiles <= t.visitedFiles && s.readFiles <= t.readFiles && s.includes <= t.includes
    && (ReadOnce(s) ==> ReadOnce(t)) && (SlotsOk(s.grid) ==> SlotsOk(t.grid))
    && (forall k :: |s.includes| <= k < |t.includes| ==>
          t.includes[k].1 in t.visitedFiles && NamesInclude(world, t.includes[k].0, t.includes[k].1))
    && OnlyReached(s, t)
    && forall ref :: ref in Refs(t.grid) ==> ref in Refs(s.grid) || RefOk(world, t.visitedFiles, ref)
  }

  lemma ReachedTransitive(s: ParseState, t: ParseState, u: ParseState)
    requires OnlyReached(s, t) && OnlyReached(t, u) && s.includes <= t.includes <= u.includes
    ensures OnlyReached(s, u)
  {
    forall files: set<string> | s.visitedFiles <= files && ClosedUnder(files, u.includes, |s.includes|)
      ensures u.visitedFiles <= files
    {
      assert ClosedUnder(files, t.includes, |s.includes|) by {
        forall k | |s.includes| <= k < |t.includes| && t.includes[k].0 in files ensures t.includes[k].1 in files {
          assert u.includes[k] == t.includes[k];
        }
      }
      assert ClosedUnder(files, u.includes, |t.includes|);
    }
  }

  lemma AdvancesTransitive(world: World, s: ParseState, t: ParseState, u: ParseState)
    requires Advances(world, s, t) && Advances(world, t, u)
    ensures Advances(world, s, u)
  {
    ReachedTransitive(s, t, u);
    hide OnlyReached, NamesInclude, HasKeyword, ReadOnce, Refs, SlotsOk;
    forall k | |s.includes| <= k < |u.includes|
      ensures u.includes[k].1 in u.visitedFiles && NamesInclude(world, u.includes[k].0, u.includes[k].1)
    {
      if k < |t.includes| {
        assert u.includes[k] == t.includes[k];
      }
    }
  }

  /** A keyword that is no include changes the grid, by an array of this file at most. */
  lemma ReadAdvances(world: World, file: string, all: seq<Token>, j: nat, record: seq<Token>, s: ParseState)
    requires world.content(file).Some? && all == Tokens(world.content(file).value)
    requires file in s.visitedFiles && j < |all|
    ensures var r := Read(world, file, ToUpper(all[j].text), record, s);
            r.Ok? ==> Advances(world, s, r.value)
  {
    var keyword := ToUpper(all[j].text);
    var r := Read(world, file, keyword, record, s);
    assert HasKeyword(all, keyword);
    hide Applied, SlotsOk, Refs, HasKeyword;
    if r.Ok? {
      AppliedRefs(world, file, keyword, record, s.grid);
      if SlotsOk(s.grid) {
        AppliedSlots(world, file, keyword, record, s.grid);
      }
    }
  }

  lemma AppliedSlots(world: World, file: string, keyword: string, record: seq<Token>, grid: GridInfo)
    requires SlotsOk(grid)
    ensures var r := Applied(world, file, keyword, record, grid); r.Ok? ==> SlotsOk(r.value)
  {
    hide EffectOf, AllNumbers, TrimmedRight, ParseInt;
    if EffectOf(keyword).Remember? {
      RememberedSlots(keyword, file, grid);
    }
  }

  lemma RememberedSlots(keyword: string, file: string, grid: GridInfo)
    requires SlotsOk(grid) && EffectOf(keyword).Remember?
    ensures SlotsOk(Remembered(grid, ArrayRef(keyword, file, EffectOf(keyword).integer)))
  {
  }

  lemma RememberedRefs(grid: GridInfo, ref: ArrayRef)
    ensures Refs(Remembered(grid, ref)) <= Refs(grid) + {ref}
  {
    var properties := grid.properties[ref.keyword := ref];
    forall r | r in properties.Values ensures r == ref || r in grid.properties.Values {
      var k :| k in properties && properties[k] == r;
      assert k != ref.keyword ==> grid.properties[k] == r;
    }
  }

  lemma AppliedRefs(world: World, file: string, keyword: string, record: seq<Token>, grid: GridInfo)
    ensures var r := Applied(world, file, keyword, record, grid);
            r.Ok? ==> forall ref :: ref in Refs(r.value) ==> ref in Refs(grid) || (ref.file == file && ref.keyword == keyword)
  {
    hide EffectOf, AllNumbers, TrimmedRight, Remembered, ParseInt;
    var r := Applied(world, file, keyword, record, grid);
    match EffectOf(keyword) {
      case Remember(integer) => RememberedRefs(grid, ArrayRef(keyword, file, integer));
      case _ =>
        if r.Ok? {
          SameRefs(grid, r.value);
        }
    }
  }

  lemma SameRefs(a: GridInfo, b: GridInfo)
    requires a.coord == b.coord && a.zcorn == b.zcorn && a.actnum == b.actnum && a.properties == b.properties
    ensures Refs(a) == Refs(b)
  {
  }

  lemma {:induction false} FileAdvances(world: World, file: string, s: ParseState, depth: nat)
    requires depth <= MAX_DEPTH + 1
    ensures var r := ParseFile(world, file, s, depth);
            r.Ok? ==> file in r.value.visitedFiles
                      && if file in s.visitedFiles then r.value == s else Advances(world, Opened(s, file), r.value)
    decreases MAX_DEPTH + 1 - depth, 1, 0
  {
    hide Advances, ParseTokens;
    if depth <= MAX_DEPTH && file !in s.visitedFiles && world.content(file).Some? {
      var tokens := Tokens(world.content(file).value);
      TokensAdvance(world, file, tokens, 0, Opened(s, file), depth);
      assert tokens[0..] == tokens;
      var r := ParseTokens(world, file, tokens, Opened(s, file), depth);
      if r.Ok? {
        AdvancesKeeps(world, Opened(s, file), r.value, file);
      }
    }
  }

  lemma AdvancesKeeps(world: World, s: ParseState, t: ParseState, file: string)
    requires Advances(world, s, t) && file in s.visitedFiles
    ensures file in t.visitedFiles
  {
  }

  lemma {:induction false} IncludedAdvances(world: World, file: string, all: seq<Token>, j: nat, s: ParseState, depth: nat)
    requires depth <= MAX_DEPTH && world.content(file).Some? && all == Tokens(world.content(file).value)
    requires file in s.visitedFiles && j < |all| && ToUpper(all[j].text) == "INCLUDE"
    ensures var r := Included(world, file, Record(all[j + 1..]).0, s, depth);
            r.Ok? ==> Advances(world, s, r.value)
    decreases MAX_DEPTH + 1 - depth, 0, 0, 0
  {
    hide ParseFile, Advances;
    var record := Record(all[j + 1..]).0;
    var r := Included(world, file, record, s, depth);
    if record == [] {
      AdvancesNowhere(world, s);
    } else if r.Ok? {
      var target := world.resolve(file, record[0].text).value;
      var named := s.(includes := s.includes + [(file, target)]);
      FileAdvances(world, target, named, depth + 1);
      assert record[0] == all[j + 1..][0] == all[j + 1];
      assert IncludeAt(world, all, file, target, j);
      IncludeAdvances(world, file, target, s, r.value);
    }
  }

  lemma AdvancesNowhere(world: World, s: ParseState)
    ensures Advances(world, s, s)
  {
  }

  /** Noting an include and parsing what it names is an advance. */
  lemma IncludeAdvances(world: World, file: string, target: string, s: ParseState, t: ParseState)
    requires file in s.visitedFiles && NamesInclude(world, file, target) && target in t.visitedFiles
    requires var named := s.(includes := s.includes + [(file, target)]);
             if target in s.visitedFiles then t == named else Advances(world, Opened(named, target), t)
    ensures Advances(world, s, t)
  {
    hide NamesInclude, HasKeyword, Refs, SlotsOk;
    var named := s.(includes := s.includes + [(file, target)]);
    forall files: set<string> | s.visitedFiles <= files && ClosedUnder(files, t.includes, |s.includes|)
      ensures t.visitedFiles <= files
    {
      assert t.includes[|s.includes|] == (file, target);
      assert ClosedUnder(files, t.includes, |named.includes|);
    }
    forall k | |s.includes| <= k < |t.includes|
      ensures t.includes[k].1 in t.visitedFiles && NamesInclude(world, t.includes[k].0, t.includes[k].1)
    {
      if k == |s.includes| {
        assert t.includes[k] == (file, target);
      }
    }
    if target !in s.visitedFiles && ReadOnce(s) {
      OpenedReadOnce(named, target);
    }
  }

  lemma OpenedReadOnce(s: ParseState, file: string)
    requires ReadOnce(s) && file !in s.visitedFiles
    ensures ReadOnce(Opened(s, file))
  {
  }

  lemma {:induction false} TokensAdvance(world: World, file: string, all: seq<Token>, j: nat, s: ParseState, depth: nat)
    requires depth <= MAX_DEPTH && world.content(file).Some? && all == Tokens(world.content(file).value)
    requires file in s.visitedFiles && j <= |all|
    ensures var r := ParseTokens(world, file, all[j..], s, depth);
            r.Ok? ==> Advances(world, s, r.value)
    decreases MAX_DEPTH + 1 - depth, 0, |all| - j, 2
  {
    hide *;
    var tokens := all[j..];
    var r := ParseTokens(world, file, tokens, s, depth);
    TokensStep(world, file, tokens, s, depth);
    AdvancesNowhere(world, s);
    if tokens != [] {
      assert tokens[0] == all[j] && tokens[1..] == all[j + 1..];
      if tokens[0].text == "/" {
        TokensAdvance(world, file, all, j + 1, s, depth);
      } else if r.Ok? && !EffectOf(ToUpper(all[j].text)).Stop? {
        var keyword, rest := ToUpper(all[j].text), all[j + 1..];
        var after := AfterKeyword(world, file, keyword, rest, s, depth);
        KeywordAdvances(world, file, all, j, s, depth);
        BehindIsSuffix(keyword, all, j + 1);
        TokensAdvance(world, file, all, |all| - |Behind(keyword, rest)|, after.value, depth);
        AdvancesTransitive(world, s, after.value, r.value);
      }
    }
  }

  lemma {:induction false} KeywordAdvances(world: World, file: string, all: seq<Token>, j: nat, s: ParseState, depth: nat)
    requires depth <= MAX_DEPTH && world.content(file).Some? && all == Tokens(world.content(file).value)
    requires file in s.visitedFiles && j < |all|
    ensures var r := AfterKeyword(world, file, ToUpper(all[j].text), all[j + 1..], s, depth);
            r.Ok? ==> Advances(world, s, r.value) && file in r.value.visitedFiles
    decreases MAX_DEPTH + 1 - depth, 0, 0, 1
  {
    hide Advances, Included, Read, EffectOf, ToUpper, Tokens, Record;
    var keyword := ToUpper(all[j].text);
    if EffectOf(keyword).Include? {
      OnlyInclude(keyword);
      IncludedAdvances(world, file, all, j, s, depth);
    } else {
      ReadAdvances(world, file, all, j, Record(all[j + 1..]).0, s);
    }
    var r := AfterKeyword(world, file, keyword, all[j + 1..], s, depth);
    if r.Ok? {
      AdvancesKeeps(world, s, r.value, file);
    }
  }

  lemma OnlyInclude(keyword: string)
    ensures EffectOf(keyword) == Include ==> keyword == "INCLUDE"
  {
  }

  lemma BehindIsSuffix(keyword: string, all: seq<Token>, j: nat)
    requires j <= |all|
    ensures var rest := Behind(keyword, all[j..]);
            |rest| <= |all| - j && rest == all[|all| - |rest|..]
  {
    hide EffectOf, Record, BehindBlock;
    var rest := Behind(keyword, all[j..]);
    assert rest == all[j..][|all[j..]| - |rest|..];
  }

  // ---------------------------------------------------------- whole decks

  const EMPTY_GRID: GridInfo := GridInfo(None, None, None, None, [], "", map[])

  function DeckOf(world: World, root: string): Result<ParseState> {
    var s :- ParseFile(world, root, ParseState(EMPTY_GRID, {}, [], []), 0);
    if s.grid.dims.None? || s.grid.coord.None? || s.grid.zcorn.None? then Throws else Ok(s)
  }

  /** Over any include graph, however large or cyclic: a deck that is read has read
      each file it visited once, and visited exactly the files that its includes reach
      from the root; each include was named by the file, and each array remembered is
      one of a visited file that has its keyword, in the place for it. */
  lemma DeckIsComplete(world: World, root: string)
    requires DeckOf(world, root).Ok?
    ensures var s := DeckOf(world, root).value;
            && ReadOnce(s) && root in s.visitedFiles && SlotsOk(s.grid)
            && (forall k :: 0 <= k < |s.includes| ==>
                  s.includes[k].1 in s.visitedFiles && NamesInclude(world, s.includes[k].0, s.includes[k].1))
            && (forall files: set<string> :: root in files && ClosedUnder(files, s.includes, 0) ==> s.visitedFiles <= files)
            && forall ref :: ref in Refs(s.grid) ==> RefOk(world, s.visitedFiles, ref)
  {
    hide ParseFile, NamesInclude, HasKeyword;
    var s0 := ParseState(EMPTY_GRID, {}, [], []);
    FileAdvances(world, root, s0, 0);
    var s := DeckOf(world, root).value;
    assert Advances(world, Opened(s0, root), s);
    assert Refs(EMPTY_GRID) == {};
    assert ReadOnce(Opened(s0, root));
  }

  /** A remembered array is found again: loading it starts behind the first of its
      keyword's tokens, and cannot fail for want of one. */
  lemma {:induction false} RememberedIsFound(tokens: seq<Token>, keyword: string, expectedCount: nat) returns (j: nat)
    requires HasKeyword(tokens, keyword)
    ensures j < |tokens| && ToUpper(tokens[j].text) == keyword
    ensures forall i :: 0 <= i < j ==> ToUpper(tokens[i].text) != keyword
    ensures var values := ValuesToSlash(tokens[j + 1..]);
            KeywordInts(tokens, keyword, expectedCount) ==
            if values.Ok? && (expectedCount == 0 || |values.value| == expectedCount) then values else Throws
    decreases |tokens|
  {
    hide ValuesToSlash, ToUpper;
    if ToUpper(tokens[0].text) == keyword {
      j := 0;
    } else {
      var rest := tokens[1..];
      var i :| 0 <= i < |tokens| && ToUpper(tokens[i].text) == keyword;
      assert rest[i - 1] == tokens[i];
      var k := RememberedIsFound(rest, keyword, expectedCount);
      j := k + 1;
      assert rest[k + 1..] == tokens[j + 1..];
      forall i | 0 <= i < j ensures ToUpper(tokens[i].text) != keyword {
        if i > 0 {
          assert rest[i - 1] == tokens[i];
        }
      }
    }
  }

  // ------------------------------------------------------------ the methods

  lemma {:induction false} RecordStep(tokens: seq<Token>, head: seq<Token>)
    ensures tokens == [] ==> head + Record(tokens).0 == head && Record(tokens).1 == []
    ensures tokens != [] && tokens[0].text == "/" ==> head + Record(tokens).0 == head && Record(tokens).1 == tokens[1..]
    ensures tokens != [] && tokens[0].text != "/" ==>
              && head + Record(tokens).0 == head + [tokens[0]] + Record(tokens[1..]).0
              && Record(tokens).1 == Record(tokens[1..]).1
  {
    assert head + [] == head;
    if tokens != [] {
      assert head + ([tokens[0]] + Record(tokens[1..]).0) == head + [tokens[0]] + Record(tokens[1..]).0;
    }
  }

  method ReadRecordTokens(tokenizer: DeckTokenizer) returns (record: seq<Token>)
    requires tokenizer.Valid()
    modifies tokenizer
    ensures tokenizer.Valid() && tokenizer.pos >= old(tokenizer.pos)
    ensures (record, tokenizer.Rest()) == Record(old(tokenizer.Rest()))
  {
    hide NextToken, Record;
    record := [];
    ghost var all := Record(tokenizer.Rest());
    assert [] + all.0 == all.0;
    while true
      invariant tokenizer.Valid() && tokenizer.pos >= old(tokenizer.pos)
      invariant all.0 == record + Record(tokenizer.Rest()).0 && all.1 == Record(tokenizer.Rest()).1
      decreases |tokenizer.input| - tokenizer.pos
    {
      ghost var rest := tokenizer.Rest();
      RecordStep(rest, record);
      var token := tokenizer.Next();
      assert token.Some? ==> rest[1..] == tokenizer.Rest();
      if token.None? || token.value.text == "/" {
        return;
      }
      record := record + [token.value];
    }
  }

  method SkipSingleRecord(tokenizer: DeckTokenizer)
    requires tokenizer.Valid()
    modifies tokenizer
    ensures tokenizer.Valid() && tokenizer.pos >= old(tokenizer.pos)
    ensures tokenizer.Rest() == Record(old(tokenizer.Rest())).1
  {
    hide NextToken;
    while true
      invariant tokenizer.Valid() && tokenizer.pos >= old(tokenizer.pos)
      invariant Record(old(tokenizer.Rest())).1 == Record(tokenizer.Rest()).1
      decreases |tokenizer.input| - tokenizer.pos
    {
      ghost var rest := tokenizer.Rest();
      var token := tokenizer.Next();
      assert token.Some? ==> rest[1..] == tokenizer.Rest();
      if token.None? || token.value.text == "/" {
        return;
      }
    }
  }

  method SkipSlashTerminatedBlock(tokenizer: DeckTokenizer)
    requires tokenizer.Valid()
    modifies tokenizer
    ensures tokenizer.Valid() && tokenizer.pos >= old(tokenizer.pos)
    ensures tokenizer.Rest() == BehindBlock(old(tokenizer.Rest()), false)
  {
    hide NextToken;
    var sawValueSinceSlash := false;
    while true
      invariant tokenizer.Valid() && tokenizer.pos >= old(tokenizer.pos)
      invariant BehindBlock(old(tokenizer.Rest()), false) == BehindBlock(tokenizer.Rest(), sawValueSinceSlash)
      decreases |tokenizer.input| - tokenizer.pos
    {
      ghost var rest := tokenizer.Rest();
      var token := tokenizer.Next();
      assert token.Some? ==> rest[1..] == tokenizer.Rest();
      if token.None? {
        return;
      }
      if token.value.text == "/" {
        if !sawValueSinceSlash {
          return;
        }
        sawValueSinceSlash := false;
      } else {
        sawValueSinceSlash := true;
      }
    }
  }

  class DeckParser {
    const world: World
    var state: ParseState

    constructor (world: World)
      ensures this.world == world && state == ParseState(EMPTY_GRID, {}, [], [])
    {
      this.world, state := world, ParseState(EMPTY_GRID, {}, [], []);
    }

    /** A keyword other than an include; what belongs to it is read or skipped. */
    method ReadKeyword(tokenizer: DeckTokenizer, file: string, keyword: string) returns (ok: bool)
      requires tokenizer.Valid() && !EffectOf(keyword).Include? && !EffectOf(keyword).Stop?
      modifies tokenizer, this`state
      ensures tokenizer.Valid() && tokenizer.pos >= old(tokenizer.pos)
      ensures var rest := old(tokenizer.Rest());
              var r := Read(world, file, keyword, Record(rest).0, old(state));
              && ok == r.Ok?
              && (ok ==> r == Ok(state) && tokenizer.Rest() == Behind(keyword, rest))
    {
      hide NextToken, EffectOf, TokensFrom, AllNumbers;
      var effect := EffectOf(keyword);
      if effect.Unit? {
        state := state.(grid := state.grid.(lengthUnit := effect.unit));
        return true;
      }
      if effect.Nothing? {
        return true;
      }
      if effect.Dims? || effect.MapAxes? || effect.GridUnit? {
        var record := ReadRecordTokens(tokenizer);
        var grid := if effect.Dims? then WithDims(record, state.grid)
                    else if effect.MapAxes? then WithMapAxes(world, record, state.grid)
                    else Ok(WithGridUnit(record, state.grid));
        if grid.Throws? {
          return false;
        }
        state := state.(grid := grid.value);
        return true;
      }
      if effect.SkipBlock? {
        SkipSlashTerminatedBlock(tokenizer);
        return true;
      }
      if effect.Remember? {
        state := state.(grid := Remembered(state.grid, ArrayRef(keyword, file, effect.integer)));
      }
      SkipSingleRecord(tokenizer);
      ok := true;
    }

    /** An INCLUDE: its record is read, and the file it names is parsed. */
    method ReadInclude(tokenizer: DeckTokenizer, file: string, depth: nat) returns (ok: bool)
      requires tokenizer.Valid() && depth <= MAX_DEPTH
      modifies tokenizer, this`state
      ensures tokenizer.Valid() && tokenizer.pos >= old(tokenizer.pos)
      ensures var rest := old(tokenizer.Rest());
              var r := Included(world, file, Record(rest).0, old(state), depth);
              && ok == r.Ok?
              && (ok ==> r == Ok(state) && tokenizer.Rest() == Record(rest).1)
      decreases MAX_DEPTH + 1 - depth, 0
    {
      hide NextToken, TokensFrom, ParseFile;
      var record := ReadRecordTokens(tokenizer);
      if record == [] {
        return true;
      }
      var target := world.resolve(file, record[0].text);
      if target.Throws? {
        return false;
      }
      state := state.(includes := state.includes + [(file, target.value)]);
      ok := ParseDeckFile(target.value, depth + 1);
    }

    method ParseDeckFile(file: string, depth: nat) returns (ok: bool)
      requires depth <= MAX_DEPTH + 1
      modifies this`state
      ensures var r := ParseFile(world, file, old(state), depth);
              ok == r.Ok? && (ok ==> r == Ok(state))
      decreases MAX_DEPTH + 1 - depth, 1
    {
      hide ParseTokens, NextToken, TokensFrom, Included, Read, EffectOf, Behind, Record;
      if depth > MAX_DEPTH {
        return false;
      }
      if file in state.visitedFiles {
        return true;
      }
      var input := world.content(file);
      if input.None? {
        return false;
      }
      state := Opened(state, file);
      var tokenizer := new DeckTokenizer(input.value);
      ghost var all := ParseTokens(world, file, tokenizer.Rest(), state, depth);
      while true
        invariant fresh(tokenizer) && tokenizer.Valid()
        invariant all == ParseTokens(world, file, tokenizer.Rest(), state, depth)
        decreases |tokenizer.input| - tokenizer.pos
      {
        TokensStep(world, file, tokenizer.Rest(), state, depth);
        ghost var rest := tokenizer.Rest();
        var token := tokenizer.Next();
        if token.None? {
          return true;
        }
        assert rest[1..] == tokenizer.Rest();
        if token.value.text == "/" {
          continue;
        }
        var keyword := ToUpper(token.value.text);
        var effect := EffectOf(keyword);
        if effect.Stop? {
          return true;
        }
        if effect.Include? {
          ok := ReadInclude(tokenizer, file, depth);
        } else {
          ok := ReadKeyword(tokenizer, file, keyword);
        }
        if !ok {
          return;
        }
      }
    }
  }

  lemma {:induction false} TokensStep(world: World, file: string, tokens: seq<Token>, s: ParseState, depth: nat)
    requires depth <= MAX_DEPTH
    ensures tokens == [] ==> ParseTokens(world, file, tokens, s, depth) == Ok(s)
    ensures tokens != [] && tokens[0].text == "/" ==>
              ParseTokens(world, file, tokens, s, depth) == ParseTokens(world, file, tokens[1..], s, depth)
    ensures tokens != [] && tokens[0].text != "/" ==>
              var keyword, rest := ToUpper(tokens[0].text), tokens[1..];
              var effect := EffectOf(keyword);
              var after := AfterKeyword(world, file, keyword, rest, s, depth);
              var all := ParseTokens(world, file, tokens, s, depth);
              && (effect.Stop? ==> all == Ok(s))
              && (effect.Include? ==> Behind(keyword, rest) == Record(rest).1)
              && (after.Throws? ==> all == Throws)
              && (after.Ok? ==> all == ParseTokens(world, file, Behind(keyword, rest), after.value, depth))
  {
    hide EffectOf, Included, Record;
  }

  method ParseDeck(world: World, root: string) returns (r: Result<GridInfo>)
    ensures var deck := DeckOf(world, root);
            r == if deck.Ok? then Ok(deck.value.grid) else Throws
  {
    hide ParseFile;
    var parser := new DeckParser(world);
    var ok := parser.ParseDeckFile(root, 0);
    if !ok || parser.state.grid.dims.None? || parser.state.grid.coord.None? || parser.state.grid.zcorn.None? {
      return Throws;
    }
    r := Ok(parser.state.grid);
  }
}
