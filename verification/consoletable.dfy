/** The console's command table: for each menu state, the words it accepts, the
    state that follows and the handler that runs.

    The table engine itself lives in a base class that is not part of this model.
    Its lookup is modelled with these assumptions: among the rows of the current
    state the first whose word equals the input ignoring case wins; failing that,
    the state's row with the empty word; failing that, the row of the dummy state.
    The state moves to the row's next state before the handler runs. */
module ConsoleTable {
  import opened Arduino
  import opened Options

  datatype State =
    | Root | Help | Check | Show | Ping | Do | Test | Send | Set | Sys
    | SetupWiFi | WfYesNo | WfGetSsid | WfGetPassword | WfGetAuth | WfConfirm
    | Dummy

  /** The numeric codes of `consoleState_t`. */
  function Code(s: State): (r: byte)
    ensures s == Dummy <==> r == 255
    ensures r <= 9 || 51 <= r <= 56 || r == 255
  {
    match s
    case Root => 0
    case Help => 1
    case Check => 2
    case Show => 3
    case Ping => 4
    case Do => 5
    case Test => 6
    case Send => 7
    case Set => 8
    case Sys => 9
    case SetupWiFi => 51
    case WfYesNo => 52
    case WfGetSsid => 53
    case WfGetPassword => 54
    case WfGetAuth => 55
    case WfConfirm => 56
    case Dummy => 255
  }

  /** Distinct states have distinct codes. */
  lemma CodeInjective(a: State, b: State)
    requires Code(a) == Code(b)
    ensures a == b
  {
  }

  datatype Handler =
    | Nop | DoHelp | DoCheck | DoShow | DoPing | DoAction | DoTest | DoSend | DoSet
    | DoSys | DoSysSub | SysSetupWiFi | SysSetWiFiCredential

  datatype Row = Row(current: State, next: State, word: string, handler: Handler)

  /** The rows of `fsmMain` that belong to one state, in table order. */
  function RowsOf(s: State): (rows: seq<Row>)
    ensures forall i :: 0 <= i < |rows| ==> rows[i].current == s
  {
    match s
    case Root => [
      Row(Root, Root, "?", DoHelp),
      Row(Root, Root, "help", DoHelp),
      Row(Root, Root, "check", DoCheck),
      Row(Root, Root, "show", DoShow),
      Row(Root, Root, "ping", DoPing),
      Row(Root, Root, "do", DoAction),
      Row(Root, Root, "test", DoTest),
      Row(Root, Root, "send", DoSend),
      Row(Root, Root, "set", DoSet),
      Row(Root, Sys, "sys", DoSys),
      Row(Root, Root, "", DoHelp)]
    case Sys => [
      Row(Sys, Root, "reset", DoSysSub),
      Row(Sys, Root, "safe", DoSysSub),
      Row(Sys, Root, "dfu", DoSysSub),
      Row(Sys, Root, "update", DoSysSub),
      Row(Sys, Root, "sync", DoSysSub),
      Row(Sys, Root, "clear", DoSysSub),
      Row(Sys, Root, "base", DoSysSub),
      Row(Sys, Root, "private", DoSysSub),
      Row(Sys, Root, "serial", DoSysSub),
      Row(Sys, WfYesNo, "setup", SysSetupWiFi),
      Row(Sys, Root, "", DoHelp)]
    case WfYesNo => [
      Row(WfYesNo, WfGetSsid, "yes", SysSetupWiFi),
      Row(WfYesNo, WfGetSsid, "y", SysSetupWiFi),
      Row(WfYesNo, Root, "no", Nop),
      Row(WfYesNo, Root, "n", Nop),
      Row(WfYesNo, Root, "", Nop)]
    case WfGetSsid => [
      Row(WfGetSsid, WfGetPassword, "", SysSetupWiFi)]
    case WfGetPassword => [
      Row(WfGetPassword, WfGetAuth, "", SysSetupWiFi)]
    case WfGetAuth => [
      Row(WfGetAuth, WfConfirm, "0", SysSetupWiFi),
      Row(WfGetAuth, WfConfirm, "1", SysSetupWiFi),
      Row(WfGetAuth, WfConfirm, "2", SysSetupWiFi),
      Row(WfGetAuth, WfConfirm, "3", SysSetupWiFi),
      Row(WfGetAuth, Root, "q", Nop)]
    case WfConfirm => [
      Row(WfConfirm, Root, "yes", SysSetWiFiCredential),
      Row(WfConfirm, Root, "y", SysSetWiFiCredential),
      Row(WfConfirm, Root, "no", Nop),
      Row(WfConfirm, Root, "n", Nop),
      Row(WfConfirm, Root, "", Nop)]
    case Dummy => [
      Row(Dummy, Root, "", DoHelp)]
    case _ => []
  }

  /** `fsmMain`: the blocks in the order of the source table. */
  const FsmMain: seq<Row> :=
    RowsOf(Root) + RowsOf(Sys) + RowsOf(WfYesNo) + RowsOf(WfGetSsid) + RowsOf(WfGetPassword)
    + RowsOf(WfGetAuth) + RowsOf(WfConfirm) + RowsOf(Dummy)

  /** The words of the table are written in lower case. */
  predicate LowerWord(w: string)
  {
    forall i :: 0 <= i < |w| ==> !('A' <= w[i] <= 'Z')
  }

  /** Against a lower-case word, a case-insensitive match is equality with the
      lower-cased input. */
  lemma MatchLowered(w: string, word: string)
    requires LowerWord(w)
    ensures EqualsIgnoreCase(w, word) <==> w == Lower(word)
  {
    LowerKeepsLowerWord(w);
  }

  lemma LowerKeepsLowerWord(w: string)
    requires LowerWord(w)
    ensures Lower(w) == w
  {
  }

  /** The first row at or after `from` whose word is `lw`. */
  function FindWord(rows: seq<Row>, lw: string, from: nat): (r: Option<nat>)
    ensures r.Some? ==> from <= r.value < |rows| && rows[r.value].word == lw
    ensures r.Some? ==> forall j :: from <= j < r.value ==> rows[j].word != lw
    ensures r.None? ==> forall j :: from <= j < |rows| ==> rows[j].word != lw
    decreases |rows| - from
  {
    if from >= |rows| then None
    else if rows[from].word == lw then Some(from)
    else FindWord(rows, lw, from + 1)
  }

  /** The position, among the state's rows, of the row the table engine picks for
      `word`: the first exact match, else the state's default row. */
  function RowIndex(state: State, word: string): (r: Option<nat>)
    ensures r.Some? ==> r.value < |RowsOf(state)|
    ensures r.Some? ==> RowsOf(state)[r.value].word in {Lower(word), ""}
  {
    var rows := RowsOf(state);
    match FindWord(rows, Lower(word), 0)
    case Some(i) => Some(i)
    case None => FindWord(rows, "", 0)
  }

  /** The row the table engine picks for `word` in `state`: the first exact match
      among the state's rows, else its default row, else the dummy row. */
  function Lookup(state: State, word: string): (r: Row)
    ensures r in RowsOf(state) || r == RowsOf(Dummy)[0]
    ensures r.current == state ==> EqualsIgnoreCase(r.word, word) || r.word == ""
    ensures r.current != state ==> r == RowsOf(Dummy)[0]
  {
    match RowIndex(state, word)
    case Some(i) =>
      TableLowerCase(state, i);
      MatchLowered(RowsOf(state)[i].word, word);
      RowsOf(state)[i]
    case None => RowsOf(Dummy)[0]
  }

  /** Row `i` of the state has the input as its word, ignoring case. */
  predicate MatchesAt(state: State, word: string, i: int)
  {
    0 <= i < |RowsOf(state)| && EqualsIgnoreCase(RowsOf(state)[i].word, word)
  }

  /** Row `i` of the state is its default row, the one with the empty word. */
  predicate DefaultAt(state: State, i: int)
  {
    0 <= i < |RowsOf(state)| && RowsOf(state)[i].word == ""
  }

  /** Some row of the state has the input as its word, ignoring case. */
  predicate AnyMatch(state: State, word: string)
  {
    exists j {:trigger MatchesAt(state, word, j)} :: 0 <= j < |RowsOf(state)| && MatchesAt(state, word, j)
  }

  /** One scan: the next state and the handler of the row the engine picks. A row
      of the state whose word equals the input, ignoring case, wins (no word comes
      twice within a state, so it is the first such row); failing that, the
      state's row with the empty word; failing that, the `consoleDummy` row, which
      returns to the root menu and runs help. The last two cases are stated
      contrapositively: a default row loses only to a match, and a result other
      than the dummy's needs a matching or a default row. */
  function Scan(state: State, word: string): (r: (State, Handler))
    ensures r == (Lookup(state, word).next, Lookup(state, word).handler)
    ensures forall i {:trigger MatchesAt(state, word, i)} :: MatchesAt(state, word, i)
              ==> r == (RowsOf(state)[i].next, RowsOf(state)[i].handler)
    ensures forall i {:trigger DefaultAt(state, i)} :: DefaultAt(state, i)
              ==> r == (RowsOf(state)[i].next, RowsOf(state)[i].handler) || AnyMatch(state, word)
    ensures r != (Root, DoHelp) ==>
              AnyMatch(state, word) || exists i {:trigger DefaultAt(state, i)} :: 0 <= i < |RowsOf(state)| && DefaultAt(state, i)
  {
    LookupPrefersMatches(state, word);
    LookupFallsToDefaults(state, word);
    LookupFallsToDummy(state, word);
    var row := Lookup(state, word);
    (row.next, row.handler)
  }

  /** Any row whose word matches the input is the one `Lookup` picks. */
  lemma LookupPrefersMatches(state: State, word: string)
    ensures forall i {:trigger MatchesAt(state, word, i)} :: MatchesAt(state, word, i)
              ==> Lookup(state, word) == RowsOf(state)[i]
  {
    forall i | MatchesAt(state, word, i)
      ensures Lookup(state, word) == RowsOf(state)[i]
    {
      LookupPrefersMatch(state, word, i);
    }
  }

  /** With no matching row, `Lookup` picks the state's default row. */
  lemma LookupFallsToDefaults(state: State, word: string)
    ensures forall i {:trigger DefaultAt(state, i)} :: DefaultAt(state, i)
              ==> Lookup(state, word) == RowsOf(state)[i] || AnyMatch(state, word)
  {
    if !AnyMatch(state, word) {
      forall i | DefaultAt(state, i)
        ensures Lookup(state, word) == RowsOf(state)[i]
      {
        forall j | 0 <= j < |RowsOf(state)|
          ensures !EqualsIgnoreCase(RowsOf(state)[j].word, word)
        {
          assert !MatchesAt(state, word, j);
        }
        LookupFallsToDefault(state, word, i);
      }
    }
  }

  /** `Lookup` picks a row of the state only when it matches or is the default. */
  lemma LookupFallsToDummy(state: State, word: string)
    ensures Lookup(state, word) != Row(Dummy, Root, "", DoHelp) ==>
              AnyMatch(state, word) || exists i {:trigger DefaultAt(state, i)} :: 0 <= i < |RowsOf(state)| && DefaultAt(state, i)
  {
    var r := Lookup(state, word);
    if r in RowsOf(state) {
      var k :| 0 <= k < |RowsOf(state)| && RowsOf(state)[k] == r;
      assert MatchesAt(state, word, k) || DefaultAt(state, k);
    }
  }

  //--------------------------------------------------------------------------
  // Properties of the table
  //--------------------------------------------------------------------------

  /** Every word of the table is in lower case, so comparing it with the
      lower-cased input is the same as comparing ignoring case. */
  lemma TableLowerCase(s: State, i: nat)
    requires i < |RowsOf(s)|
    ensures LowerWord(RowsOf(s)[i].word)
  {
    Shape(s, i);
  }

  /** In every state the row with the empty word, when there is one, is the last
      row of the state. */
  lemma EmptyRowLast(s: State, i: nat)
    requires i < |RowsOf(s)| && RowsOf(s)[i].word == ""
    ensures i == |RowsOf(s)| - 1
  {
    Shape(s, i);
  }

  /** The states the console waits in for its next line. The system menu is only
      passed through: `doSys` scans the following word at once. */
  predicate Resting(s: State)
  {
    s == Root || s == WfYesNo || s == WfGetSsid || s == WfGetPassword || s == WfGetAuth || s == WfConfirm
  }

  /** Gathers the facts of one state's block. */
  lemma Shape(s: State, i: nat)
    requires i < |RowsOf(s)|
    ensures LowerWord(RowsOf(s)[i].word)
    ensures RowsOf(s)[i].word == "" ==> i == |RowsOf(s)| - 1
    ensures RowsOf(s)[i].handler == DoSys ==> s == Root && RowsOf(s)[i].next == Sys
    ensures RowsOf(s)[i].next == WfConfirm ==> s == WfGetAuth && RowsOf(s)[i].word in AuthWords
  {
    match s
    case Root => RootShape(i);
    case Sys => SysShape(i);
    case WfYesNo => YesNoShape(i);
    case WfGetAuth => AuthShape(i);
    case WfConfirm => ConfirmShape(i);
    case _ =>
  }

  /** Every row leads to a resting state, except the one that runs `doSys`. */
  lemma ShapeRests(s: State, i: nat)
    requires i < |RowsOf(s)|
    ensures Resting(RowsOf(s)[i].next) || (RowsOf(s)[i].next == Sys && RowsOf(s)[i].handler == DoSys)
  {
    match s
    case Root => RootShape(i);
    case Sys => SysShape(i);
    case WfYesNo => YesNoShape(i);
    case WfGetAuth => AuthShape(i);
    case WfConfirm => ConfirmShape(i);
    case _ =>
  }

  /** The answers of the authentication-method menu that lead on. */
  const AuthWords: seq<string> := ["0", "1", "2", "3"]

  /** From the root menu only `sys` leaves, to the system menu. */
  lemma RootShape(i: nat)
    requires i < |RowsOf(Root)|
    ensures var r := RowsOf(Root)[i];
            && LowerWord(r.word)
            && (r.word == "" <==> i == |RowsOf(Root)| - 1)
            && (r.next != Root <==> r.word == "sys")
            && (r.handler == DoSys <==> r.word == "sys")
            && (r.word == "sys" ==> r.next == Sys)
  {
  }

  /** From the system menu every row returns to the root menu except `setup`, which
      starts the Wi-Fi workflow. */
  lemma SysShape(i: nat)
    requires i < |RowsOf(Sys)|
    ensures var r := RowsOf(Sys)[i];
            && LowerWord(r.word)
            && (r.word == "" <==> i == |RowsOf(Sys)| - 1)
            && (r.next != Root <==> r.word == "setup")
            && (r.word == "setup" ==> r.next == WfYesNo)
            && r.handler != DoSys
  {
  }

  /** At the first workflow question only `yes` and `y` go on to the SSID. */
  lemma YesNoShape(i: nat)
    requires i < |RowsOf(WfYesNo)|
    ensures var r := RowsOf(WfYesNo)[i];
            && LowerWord(r.word)
            && (r.word == "" <==> i == |RowsOf(WfYesNo)| - 1)
            && (r.next != Root <==> r.word in ["yes", "y"])
            && (r.next == Root || r.next == WfGetSsid)
            && r.handler != DoSys
  {
  }

  /** The authentication-method menu has no empty-word row: 0..3 lead to the
      confirmation and `q` back to the root menu. */
  lemma AuthShape(i: nat)
    requires i < |RowsOf(WfGetAuth)|
    ensures var r := RowsOf(WfGetAuth)[i];
            && LowerWord(r.word)
            && r.word != ""
            && (r.next == WfConfirm <==> r.word in AuthWords)
            && (r.next == Root <==> r.word == "q")
            && (r.next == WfConfirm || r.next == Root)
            && r.handler != DoSys
  {
  }

  /** Every row of the confirmation returns to the root menu; only `yes` and `y`
      apply the credential. */
  lemma ConfirmShape(i: nat)
    requires i < |RowsOf(WfConfirm)|
    ensures var r := RowsOf(WfConfirm)[i];
            && LowerWord(r.word)
            && (r.word == "" <==> i == |RowsOf(WfConfirm)| - 1)
            && r.next == Root
            && (r.handler == SysSetWiFiCredential <==> r.word in ["yes", "y"])
            && r.handler != DoSys
  {
  }

  /** Only the `sys` row of the root menu runs `doSys`, and it moves to the system
      menu. */
  lemma ScanSysOnlyFromRoot(s: State, word: string)
    ensures Scan(s, word).1 == DoSys ==> s == Root && Scan(s, word).0 == Sys
  {
    LookupSysOnlyFromRoot(s, word);
  }

  lemma LookupSysOnlyFromRoot(s: State, word: string)
    ensures Lookup(s, word).handler == DoSys ==> s == Root && Lookup(s, word).next == Sys
  {
    match RowIndex(s, word)
    case Some(i) => Shape(s, i);
    case None =>
  }

  /** Every scan ends in a resting state, except `sys`, which passes through the
      system menu. */
  lemma ScanRests(s: State, word: string)
    ensures Resting(Scan(s, word).0) || (Scan(s, word).0 == Sys && Scan(s, word).1 == DoSys)
  {
    LookupRests(s, word);
  }

  lemma LookupRests(s: State, word: string)
    ensures Resting(Lookup(s, word).next) || (Lookup(s, word).next == Sys && Lookup(s, word).handler == DoSys)
  {
    var r := Lookup(s, word);
    if r in RowsOf(s) {
      var k :| 0 <= k < |RowsOf(s)| && RowsOf(s)[k] == r;
      ShapeRests(s, k);
    }
  }

  /** The confirmation is reached only from the method menu, by a method number. */
  lemma ScanConfirmOnlyByMethod(s: State, word: string)
    ensures Scan(s, word).0 == WfConfirm ==> s == WfGetAuth && Lower(word) in AuthWords
  {
    LookupConfirmOnlyByMethod(s, word);
  }

  lemma LookupConfirmOnlyByMethod(s: State, word: string)
    ensures Lookup(s, word).next == WfConfirm ==> s == WfGetAuth && Lower(word) in AuthWords
  {
    match RowIndex(s, word)
    case Some(i) => Shape(s, i);
    case None =>
  }

  /** Within a state no word is listed twice, so the first match is the only one. */
  lemma TableDeterministic(s: State)
    ensures var rows := RowsOf(s);
            forall i, j :: 0 <= i < j < |rows| ==> rows[i].word != rows[j].word
  {
  }

  /** Every state the table moves to has rows of its own. */
  lemma TableClosed(s: State, i: nat)
    requires i < |RowsOf(s)|
    ensures |RowsOf(RowsOf(s)[i].next)| > 0
  {
  }

  /** The row `Lookup` picks is the first of the state's rows whose word is the
      lower-cased input. */
  lemma LookupAt(state: State, word: string, i: nat)
    requires i < |RowsOf(state)| && RowsOf(state)[i].word == Lower(word)
    requires forall j :: 0 <= j < i ==> RowsOf(state)[j].word != Lower(word)
    ensures Lookup(state, word) == RowsOf(state)[i]
  {
  }

  /** A row whose word matches the input, ignoring case, is the one picked. */
  lemma LookupPrefersMatch(state: State, word: string, i: nat)
    requires i < |RowsOf(state)| && EqualsIgnoreCase(RowsOf(state)[i].word, word)
    ensures Lookup(state, word) == RowsOf(state)[i]
  {
    var rows := RowsOf(state);
    TableLowerCase(state, i);
    MatchLowered(rows[i].word, word);
    TableDeterministic(state);
    var k := FindWord(rows, Lower(word), 0);
    assert k.Some? && k.value == i;
  }

  /** With no row matching the input, the state's default row is picked. */
  lemma LookupFallsToDefault(state: State, word: string, i: nat)
    requires i < |RowsOf(state)| && RowsOf(state)[i].word == ""
    requires forall j :: 0 <= j < |RowsOf(state)| ==> !EqualsIgnoreCase(RowsOf(state)[j].word, word)
    ensures Lookup(state, word) == RowsOf(state)[i]
  {
    var rows := RowsOf(state);
    forall j | 0 <= j < |rows| ensures rows[j].word != Lower(word) {
      TableLowerCase(state, j);
      MatchLowered(rows[j].word, word);
    }
    TableDeterministic(state);
    assert FindWord(rows, Lower(word), 0).None?;
    var k := FindWord(rows, "", 0);
    assert k.Some? && k.value == i;
  }

  /** The Wi-Fi workflow starts with `sys`, then `setup`, then `y`. */
  lemma WiFiWorkflowStarts()
    ensures Scan(Root, "sys") == (Sys, DoSys)
    ensures Scan(Sys, "setup") == (WfYesNo, SysSetupWiFi)
    ensures Scan(WfYesNo, "y") == (WfGetSsid, SysSetupWiFi)
  {
    ScanSys();
    ScanSetup();
    ScanYes(WfYesNo);
  }

  lemma ScanHelp()
    ensures Scan(Root, "help") == (Root, DoHelp)
  {
    LowerKeepsLowerWord("help");
    LookupAt(Root, "help", 1);
  }

  lemma ScanSys()
    ensures Scan(Root, "sys") == (Sys, DoSys)
  {
    LowerKeepsLowerWord("sys");
    LookupAt(Root, "sys", 9);
  }

  lemma ScanSetup()
    ensures Scan(Sys, "setup") == (WfYesNo, SysSetupWiFi)
  {
    LowerKeepsLowerWord("setup");
    LookupAt(Sys, "setup", 9);
  }

  lemma ScanYes(s: State)
    requires s == WfYesNo || s == WfConfirm
    ensures Scan(s, "y") == if s == WfYesNo then (WfGetSsid, SysSetupWiFi) else (Root, SysSetWiFiCredential)
  {
    LowerKeepsLowerWord("y");
    LookupAt(s, "y", 1);
  }

  /** Any line at all is taken as the SSID, then any line as the password. */
  lemma WiFiWorkflowTakesAnything(ssid: string, password: string)
    ensures Scan(WfGetSsid, ssid) == (WfGetPassword, SysSetupWiFi)
    ensures Scan(WfGetPassword, password) == (WfGetAuth, SysSetupWiFi)
  {
  }

  /** A method number 0..3 leads to the confirmation, and `y` there runs the
      credential handler and returns to the root menu. */
  lemma WiFiWorkflowEnds(auth: string)
    requires Lower(auth) in AuthWords
    ensures Scan(WfGetAuth, auth) == (WfConfirm, SysSetupWiFi)
    ensures Scan(WfConfirm, "y") == (Root, SysSetWiFiCredential)
  {
    ScanMethod(auth);
    ScanYes(WfConfirm);
  }

  /** A word that lower-cases to a method number picks that number's row. */
  lemma ScanMethod(word: string)
    requires Lower(word) in AuthWords
    ensures Scan(WfGetAuth, word) == (WfConfirm, SysSetupWiFi)
  {
    var w := Lower(word);
    LowerKeepsLowerWord(w);
    if w == "0" {
      LookupAt(WfGetAuth, word, 0);
    } else if w == "1" {
      LookupAt(WfGetAuth, word, 1);
    } else if w == "2" {
      LookupAt(WfGetAuth, word, 2);
    } else {
      LookupAt(WfGetAuth, word, 3);
    }
  }

  /** The method menu has no default row: any answer other than 0..3 or `q` falls
      to the dummy row, back to the root menu with the help text. */
  lemma AuthMenuFallsToDummy(word: string)
    requires Lower(word) !in ["0", "1", "2", "3", "q"]
    ensures Scan(WfGetAuth, word) == (Root, DoHelp)
  {
  }
}
