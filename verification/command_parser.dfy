/** The text command parser (commandline/CommandParser.kt).

    A command line is dispatched to the first command type whose text it starts with, ignoring
    case; `add station --name "name"` is the one command with an argument. The listener calls
    the parser makes become the `Action` it returns. The new station's id, a random UUID in the
    source, is a parameter.
 */
module CommandParser {
  import opened Results
  import opened RegistryObjects

  /** The command types, in declaration order. */
  datatype CommandType =
    | Exit | Help | Init | Start | Pause
    | ListCommodities | ListEntities | ListBusinesses | ListProducers | ListStations
    | ListStockpile | ListActiveTrades
    | Add

  const CommandTypes: seq<CommandType> := [
    Exit, Help, Init, Start, Pause,
    ListCommodities, ListEntities, ListBusinesses, ListProducers, ListStations,
    ListStockpile, ListActiveTrades,
    Add]

  /** The text a command line starts with to select `t`. */
  function Text(t: CommandType): string {
    match t
    case Exit => "exit"
    case Help => "help"
    case Init => "init"
    case Start => "start"
    case Pause => "pause"
    case ListCommodities => "list commodities"
    case ListEntities => "list entities"
    case ListBusinesses => "list businesses"
    case ListProducers => "list producers"
    case ListStations => "list stations"
    case ListStockpile => "list stockpile"
    case ListActiveTrades => "list active trades"
    case Add => "add"
  }

  /** The example shown in a usage message; the text itself unless given. */
  function ExampleCommand(t: CommandType): string {
    match t
    case Init => "init (initialize example world)"
    case Add => "add [station] --name \"name\""
    case _ => Text(t)
  }

  /** What the parser asks of its listener. */
  datatype Action =
    | Invoke(command: CommandType)   // the listener method of a command without argument
    | AddStation(station: Station)
    | OnError(message: string)
    | UnknownCommand

  // ---------------------------------------------------------------------------------------
  // Matching (line 22)

  /** A letter compared ignoring case: ASCII upper case folded to lower case. */
  function Fold(c: char): (r: char)
    ensures 'A' <= c <= 'Z' ==> 'a' <= r <= 'z' && r as int - c as int == 32
    ensures !('A' <= c <= 'Z') ==> r == c
  {
    if 'A' <= c <= 'Z' then (c as int + 32) as char else c
  }

  /** Kotlin `startsWith(prefix, ignoreCase = true)`. */
  predicate StartsWithIgnoringCase(s: string, prefix: string) {
    |prefix| <= |s| && forall i :: 0 <= i < |prefix| ==> Fold(s[i]) == Fold(prefix[i])
  }

  /** `command isCommand t`. */
  predicate IsCommand(command: string, t: CommandType) {
    StartsWithIgnoringCase(command, Text(t))
  }

  /** The command texts are written in lower case. */
  lemma TextIsLowerCase(t: CommandType)
    ensures forall i :: 0 <= i < |Text(t)| ==> Fold(Text(t)[i]) == Text(t)[i]
  {
  }

  /** Two command texts differ at a position both have: no text is a prefix of another.
      Only the `list` texts share their first letter; they part at the sixth or eighth. */
  lemma TextsDiffer(t: CommandType, u: CommandType) returns (i: nat)
    requires t != u
    ensures i < |Text(t)| && i < |Text(u)| && Text(t)[i] != Text(u)[i]
  {
    if Text(t)[0] != Text(u)[0] {
      i := 0;
    } else if (t.ListStations? || t.ListStockpile?) && (u.ListStations? || u.ListStockpile?) {
      i := 7;
    } else {
      i := 5;
    }
  }

  /** A command line selects at most one command type, so the order in which the types are
      tried does not change the outcome. */
  lemma AtMostOneCommand(command: string, t: CommandType, u: CommandType)
    requires IsCommand(command, t) && IsCommand(command, u)
    ensures t == u
  {
    if t != u {
      var i := TextsDiffer(t, u);
      TextIsLowerCase(t);
      TextIsLowerCase(u);
    }
  }

  // ---------------------------------------------------------------------------------------
  // Dispatch (lines 45-60)

  /** `t` is in `types` and the command line selects none of the types before it. */
  ghost predicate FirstAt(command: string, types: seq<CommandType>, t: CommandType) {
    exists i :: 0 <= i < |types| && types[i] == t && forall j :: 0 <= j < i ==> !IsCommand(command, types[j])
  }

  /** The first of `types` the command line selects. */
  function FirstCommand(command: string, types: seq<CommandType>): (r: Option<CommandType>)
    ensures r.Some? ==> IsCommand(command, r.value) && FirstAt(command, types, r.value)
    ensures r.None? <==> forall i :: 0 <= i < |types| ==> !IsCommand(command, types[i])
  {
    if |types| == 0 then None
    else if IsCommand(command, types[0]) then Some(types[0])
    else
      var r := FirstCommand(command, types[1..]);
      assert forall i :: 1 <= i < |types| ==> types[i] == types[1..][i - 1];
      assert r.Some? ==> FirstAt(command, types, r.value) by {
        if r.Some? {
          var i :| 0 <= i < |types[1..]| && types[1..][i] == r.value
            && forall j :: 0 <= j < i ==> !IsCommand(command, types[1..][j]);
          assert types[i + 1] == r.value;
        }
      }
      r
  }

  /** Every command type is in the list that is tried. */
  lemma AllCommandTypes(t: CommandType)
    ensures t in CommandTypes
  {
  }

  /** Among any types, the line selects `t` exactly when it starts with `t`'s text, ignoring
      case. */
  lemma {:induction false} SelectsIffAmong(command: string, types: seq<CommandType>, t: CommandType)
    requires t in types
    ensures FirstCommand(command, types) == Some(t) <==> IsCommand(command, t)
  {
    var r := FirstCommand(command, types);
    if IsCommand(command, t) {
      var k :| 0 <= k < |types| && types[k] == t;
      assert r.Some?;
      AtMostOneCommand(command, t, r.value);
    }
  }

  /** The line selects `t` exactly when it starts with `t`'s text, ignoring case. */
  lemma SelectsIff(command: string, t: CommandType)
    ensures FirstCommand(command, CommandTypes) == Some(t) <==> IsCommand(command, t)
  {
    AllCommandTypes(t);
    SelectsIffAmong(command, CommandTypes, t);
  }

  /** The error the listener gets when `t` is used wrongly. */
  function Usage(t: CommandType): Action {
    OnError("Usage: " + ExampleCommand(t))
  }

  /** `executeCommand`: the command is dispatched on its leading text; `add` parses its
      argument; any other line is unknown. */
  function ExecuteCommand(command: string, stationId: string): (r: Action)
    ensures r == UnknownCommand <==> forall t :: !IsCommand(command, t)
    ensures forall t :: IsCommand(command, t) && t != Add ==> r == Invoke(t)
    ensures IsCommand(command, Add) ==> r == AddCommand(command, stationId)
  {
    var first := FirstCommand(command, CommandTypes);
    forall t ensures first == Some(t) <==> IsCommand(command, t) {
      SelectsIff(command, t);
    }
    match first
    case None => UnknownCommand
    case Some(Add) => AddCommand(command, stationId)
    case Some(t) => Invoke(t)
  }

  // ---------------------------------------------------------------------------------------
  // String helpers

  /** `d` occurs in `s` at `i`. */
  predicate Occurs(s: string, d: string, i: int) {
    0 <= i && i + |d| <= |s| && s[i..i + |d|] == d
  }

  /** Kotlin `indexOf(d, from)`: the first occurrence of `d` in `s` at or after `from`. */
  function IndexOf(s: string, d: string, from: nat): (r: Option<nat>)
    requires from <= |s|
    ensures r.Some? ==> from <= r.value && Occurs(s, d, r.value)
    decreases |s| - from
  {
    if from + |d| > |s| then None
    else if s[from..from + |d|] == d then Some(from)
    else if from == |s| then None
    else IndexOf(s, d, from + 1)
  }

  /** `IndexOf` finds the first occurrence, and finds none only when there is none. */
  lemma {:induction false} IndexOfFirst(s: string, d: string, from: nat)
    requires from <= |s|
    ensures IndexOf(s, d, from).Some? ==> forall j :: from <= j < IndexOf(s, d, from).value ==> !Occurs(s, d, j)
    ensures IndexOf(s, d, from).None? ==> forall j :: from <= j ==> !Occurs(s, d, j)
    decreases |s| - from
  {
    if from + |d| > |s| {
    } else if s[from..from + |d|] == d {
    } else if from == |s| {
    } else {
      IndexOfFirst(s, d, from + 1);
    }
  }

  /** Kotlin `substringAfter(d, missingDelimiterValue = "")`. */
  function SubstringAfter(s: string, d: string): string {
    match IndexOf(s, d, 0)
    case None => ""
    case Some(i) => s[i + |d|..]
  }

  /** The text after the first occurrence of `d`. */
  lemma SubstringAfterFirst(s: string, d: string, i: nat)
    requires Occurs(s, d, i) && forall j :: 0 <= j < i ==> !Occurs(s, d, j)
    ensures SubstringAfter(s, d) == s[i + |d|..]
  {
    IndexOfFirst(s, d, 0);
  }

  /** Without an occurrence of `d`, nothing. */
  lemma SubstringAfterMissing(s: string, d: string)
    requires forall j :: !Occurs(s, d, j)
    ensures SubstringAfter(s, d) == ""
  {
  }

  /** Kotlin `trim(*cs)`: `s` without the leading and trailing characters in `cs`. */
  function Trim(s: string, cs: set<char>): string
    decreases |s|
  {
    if |s| > 0 && s[0] in cs then Trim(s[1..], cs)
    else if |s| > 0 && s[|s| - 1] in cs then Trim(s[..|s| - 1], cs)
    else s
  }

  /** `s[i..j]` is `s` with only characters of `cs` cut from either end. */
  predicate Trimmed(s: string, cs: set<char>, i: int, j: int) {
    0 <= i <= j <= |s|
    && (forall k :: 0 <= k < i ==> s[k] in cs)
    && (forall k :: j <= k < |s| ==> s[k] in cs)
  }

  /** `Trim` cuts only characters of `cs`, and no more of them remain at either end. */
  lemma {:induction false} TrimCuts(s: string, cs: set<char>) returns (i: nat, j: nat)
    ensures Trimmed(s, cs, i, j) && Trim(s, cs) == s[i..j]
    ensures |Trim(s, cs)| > 0 ==> Trim(s, cs)[0] !in cs && Trim(s, cs)[|Trim(s, cs)| - 1] !in cs
    decreases |s|
  {
    if |s| > 0 && s[0] in cs {
      var i1, j1 := TrimCuts(s[1..], cs);
      i, j := i1 + 1, j1 + 1;
      assert s[1..][i1..j1] == s[i..j];
      forall k | 0 <= k < i ensures s[k] in cs {
        if k > 0 {
          assert s[k] == s[1..][k - 1];
        }
      }
      forall k | j <= k < |s| ensures s[k] in cs {
        assert s[k] == s[1..][k - 1];
      }
    } else if |s| > 0 && s[|s| - 1] in cs {
      var n := |s| - 1;
      i, j := TrimCuts(s[..n], cs);
      assert s[..n][i..j] == s[i..j];
      forall k | j <= k < |s| ensures s[k] in cs {
        if k < n {
          assert s[k] == s[..n][k];
        }
      }
    } else {
      i, j := 0, |s|;
    }
  }

  /** Kotlin `Char.isWhitespace()` on the JVM: `Character.isWhitespace` or
      `Character.isSpaceChar`. */
  predicate IsWhitespace(c: char) {
    var n := c as int;
    (9 <= n <= 13) || (28 <= n <= 32) || n == 0xA0 || n == 0x1680 || (0x2000 <= n <= 0x200A)
    || n == 0x2028 || n == 0x2029 || n == 0x202F || n == 0x205F || n == 0x3000
  }

  /** Kotlin `isBlank()`. */
  predicate IsBlank(s: string) {
    forall i :: 0 <= i < |s| ==> IsWhitespace(s[i])
  }

  // ---------------------------------------------------------------------------------------
  // `add station --name "name"` (lines 62-87)

  /** The characters trimmed from both ends of a station name. */
  const NamePadding: set<char> := {'"', ' '}

  /** The text after the first `--name `, padding trimmed; empty without a `--name `. */
  function StationName(command: string): string {
    Trim(SubstringAfter(command, "--name "), NamePadding)
  }

  /** The part of `command` after its first space starts with `station`, in lower case. */
  predicate StationArgument(command: string) {
    IndexOf(command, " ", 0).Some? && "station" <= command[IndexOf(command, " ", 0).value + 1..]
  }

  /** `add`: the part after the first space must start with `station`, in lower case. */
  function AddCommand(command: string, stationId: string): (r: Action)
    ensures r == Usage(Add) || r == AddStationCommand(command, stationId)
    ensures StationArgument(command) ==> r == AddStationCommand(command, stationId)
    ensures !StationArgument(command) ==> r == Usage(Add)
  {
    match IndexOf(command, " ", 0)
    case None => Usage(Add)
    case Some(k) => if "station" <= command[k + 1..] then AddStationCommand(command, stationId) else Usage(Add)
  }

  /** `addStation`: a station named by the `--name` argument, unless that name is empty or
      blank. */
  function AddStationCommand(command: string, stationId: string): (r: Action)
    ensures r == Usage(Add) || r.AddStation?
    ensures r.AddStation? ==> r.station == Station(stationId, StationName(command))
    ensures r.AddStation? ==> |r.station.name| > 0 && !IsBlank(r.station.name)
    ensures StationName(command) != "" && !IsBlank(StationName(command)) ==>
      r == AddStation(Station(stationId, StationName(command)))
  {
    var name := StationName(command);
    if name != "" && !IsBlank(name) then AddStation(Station(stationId, name)) else Usage(Add)
  }

  /** Trimming a name padded with trimmed characters gives the name back. */
  lemma {:induction false} TrimPadded(pre: string, name: string, post: string, cs: set<char>)
    requires forall k :: 0 <= k < |pre| ==> pre[k] in cs
    requires forall k :: 0 <= k < |post| ==> post[k] in cs
    requires |name| > 0 && name[0] !in cs && name[|name| - 1] !in cs
    ensures Trim(pre + name + post, cs) == name
  {
    var s := pre + name + post;
    var r := Trim(s, cs);
    var i, j := TrimCuts(s, cs);
    assert s[|pre|] == name[0];
    assert s[|pre| + |name| - 1] == name[|name| - 1];
    assert s[|pre|..|pre| + |name|] == name;
  }

  /** `word` spells `add` in any case. */
  predicate AddWord(word: string) {
    |word| == 3 && StartsWithIgnoringCase(word, Text(Add))
  }

  /** After a spelling of `add`, the first space is the one that follows it. */
  lemma {:induction false} SpaceAfterAdd(word: string, rest: string)
    requires AddWord(word)
    ensures IsCommand(word + " " + rest, Add)
    ensures IndexOf(word + " " + rest, " ", 0) == Some(3)
    ensures (word + " " + rest)[4..] == rest
  {
    var command := word + " " + rest;
    assert Occurs(command, " ", 3);
    forall j | 0 <= j < 3 ensures !Occurs(command, " ", j) {
      assert command[j] == word[j];
    }
    IndexOfFirst(command, " ", 0);
    assert command[4..] == rest;
  }

  /** The `--name ` argument of a line whose head holds no `-` is everything after it. */
  lemma {:induction false} NameAfterHead(head: string, rest: string)
    requires forall k :: 0 <= k < |head| ==> head[k] != '-'
    ensures SubstringAfter(head + "--name " + rest, "--name ") == rest
  {
    var command := head + "--name " + rest;
    assert Occurs(command, "--name ", |head|);
    forall j | 0 <= j < |head| ensures !Occurs(command, "--name ", j) {
      assert command[j] == head[j];
    }
    SubstringAfterFirst(command, "--name ", |head|);
    assert command[|head| + 7..] == rest;
  }

  /** The name of `add station --name <arg>` is `arg`, trimmed. */
  lemma {:induction false} StationNameAfterAdd(word: string, arg: string)
    requires AddWord(word)
    ensures StationName(word + " station --name " + arg) == Trim(arg, NamePadding)
  {
    var head := word + " station ";
    assert word + " station --name " + arg == head + "--name " + arg;
    HeadHasNoDash(word);
    NameAfterHead(head, arg);
  }

  /** `add station --name <arg>` selects `add` and its argument begins with `station`. */
  lemma {:induction false} StationArgumentAfterAdd(word: string, arg: string)
    requires AddWord(word)
    ensures IsCommand(word + " station --name " + arg, Add)
    ensures IndexOf(word + " station --name " + arg, " ", 0) == Some(3)
    ensures "station" <= (word + " station --name " + arg)[4..]
  {
    var rest := "station --name " + arg;
    assert word + " station --name " + arg == word + " " + rest;
    SpaceAfterAdd(word, rest);
  }

  /** `add station --name <arg>` adds a station named `arg` trimmed, unless that is empty or
      blank, when it answers with the usage. */
  lemma {:induction false} AddStationLine(word: string, arg: string, stationId: string)
    requires AddWord(word)
    ensures var name := Trim(arg, NamePadding);
      ExecuteCommand(word + " station --name " + arg, stationId)
      == if |name| > 0 && !IsBlank(name) then AddStation(Station(stationId, name)) else Usage(Add)
  {
    var command := word + " station --name " + arg;
    StationNameAfterAdd(word, arg);
    StationArgumentAfterAdd(word, arg);
    assert ExecuteCommand(command, stationId) == AddCommand(command, stationId);
  }

  /** The command line `add station --name <name>`, padding around the name allowed, gives a
      station with exactly that name. */
  lemma {:induction false} AddStationRoundTrip(word: string, pre: string, name: string, post: string, stationId: string)
    requires AddWord(word)
    requires forall k :: 0 <= k < |pre| ==> pre[k] in NamePadding
    requires forall k :: 0 <= k < |post| ==> post[k] in NamePadding
    requires |name| > 0 && !IsBlank(name) && name[0] !in NamePadding && name[|name| - 1] !in NamePadding
    ensures ExecuteCommand(word + " station --name " + (pre + name + post), stationId) == AddStation(Station(stationId, name))
  {
    TrimPadded(pre, name, post, NamePadding);
    AddStationLine(word, pre + name + post, stationId);
  }

  /** `add station ` holds no `-`, in any case. */
  lemma HeadHasNoDash(word: string)
    requires AddWord(word)
    ensures forall k :: 0 <= k < |word + " station "| ==> (word + " station ")[k] != '-'
  {
    forall k | 0 <= k < |word + " station "| ensures (word + " station ")[k] != '-' {
      if k < 3 {
        assert (word + " station ")[k] == word[k];
      }
    }
  }

  /** An `add` line without a space, or whose part after the first space does not begin with
      `station`, is answered with the usage. */
  lemma AddOtherIsUsage(command: string, stationId: string)
    requires IsCommand(command, Add) && !StationArgument(command)
    ensures ExecuteCommand(command, stationId) == Usage(Add)
  {
  }

  /** Every line that selects `add`: it adds a station named by its `--name` argument exactly
      when the part after the first space begins with `station` and that name is neither empty
      nor blank; otherwise it answers with the usage. */
  lemma AddLine(command: string, stationId: string)
    requires IsCommand(command, Add)
    ensures var name := StationName(command);
      ExecuteCommand(command, stationId)
      == if StationArgument(command) && name != "" && !IsBlank(name) then AddStation(Station(stationId, name))
         else Usage(Add)
  {
  }

  /** A command line without `--name ` never adds a station. */
  lemma MissingNameIsUsage(command: string, stationId: string)
    requires forall j :: !Occurs(command, "--name ", j)
    ensures ExecuteCommand(command, stationId) != AddStation(Station(stationId, StationName(command)))
    ensures IsCommand(command, Add) ==> ExecuteCommand(command, stationId) == Usage(Add)
  {
    SubstringAfterMissing(command, "--name ");
    var _, _ := TrimCuts("", NamePadding);
  }
}
