/**
 * The data shaping done by the web service that lists the recordings of an
 * activity: the group access check, the enabled tools, the removal of
 * recordings already imported into another activity, the rendered rows, the
 * column schema, the table locale and the ping interval.
 */
module GetRecordings {
  import opened Wrappers
  import opened PhpStrings

  /** Group modes of an activity. */
  const NOGROUPS: int := 0
  const SEPARATEGROUPS: int := 1
  const VISIBLEGROUPS: int := 2

  /** The tools enabled when the request names none. */
  const DEFAULT_TOOLS: string := "protect" + "," + "unprotect" + "," + "publish" + "," + "unpublish" + "," + "delete"
  const DEFAULT_TOOL_NAMES: seq<string> := ["protect", "unprotect", "publish", "unpublish", "delete"]

  /** The access exception "No access to this group". */
  datatype AccessError = NoAccessToGroup

  /** A recording as listed; only its recordingid is looked at here. */
  datatype ListedRecording = ListedRecording(id: int, recordingid: string)

  /**
   * What the row renderer makes of one recording, as its cells; the empty
   * list is what PHP's empty() holds of (a null or empty result).
   */
  type RenderedRow = seq<(string, string)>

  /** One column description of the table. Absent optional keys are None. */
  datatype Column = Column(
    key: string,
    labelText: string,
    width: string,
    columnType: Option<string>,
    sortable: Option<bool>,
    allowHTML: Option<bool>)

  datatype TableData = TableData(
    activity: string,
    pingInterval: int,
    locale: string,
    profileFeatures: seq<string>,
    columns: seq<Column>,
    data: seq<RenderedRow>)

  datatype Response = Response(status: bool, tabledata: TableData, warnings: seq<string>)

  /**
   * The service's parameters; None stands for an omitted (null) value.
   * bigbluebuttonbnid only selects the activity, which reaches the model
   * already resolved, as the Context.
   */
  datatype Request = Request(
    bigbluebuttonbnid: int,
    removeimportedid: int,
    tools: Option<string>,
    groupid: Option<int>)

  /**
   * What the service reads from its collaborators: the activity's group mode
   * and current group, whether the caller may access all groups, the groups
   * of the course/grouping and the caller's own groups, the recordings listed
   * for the activity, the recordings of the removeimportedid activity, the
   * preview and manage flags, the language's locale tag, the ping interval
   * setting in seconds, the activity status and the type profile features.
   */
  datatype Context = Context(
    groupMode: int,
    instanceGroup: int,
    accessAllGroups: bool,
    courseGroups: set<int>,
    callerGroups: set<int>,
    recordings: seq<ListedRecording>,
    importedRecordings: seq<ListedRecording>,
    previewEnabled: bool,
    canManageRecordings: bool,
    lang: string,
    pingIntervalSetting: int,
    activityStatus: string,
    profileFeatures: seq<string>)

  // ---------------------------------------------------------------------------
  // Group access

  /** The check applies: the activity uses groups and a non-zero group was asked for. */
  predicate GroupRequested(groupMode: int, groupid: Option<int>) {
    groupMode != NOGROUPS && groupid.Some? && groupid.value != 0
  }

  /** The groups a caller may ask for. */
  function AllowedGroups(
    groupMode: int, accessAllGroups: bool, courseGroups: set<int>, callerGroups: set<int>): (allowed: set<int>)
    ensures accessAllGroups ==> allowed == courseGroups
    ensures groupMode == VISIBLEGROUPS ==> allowed == courseGroups
    ensures !accessAllGroups && groupMode != VISIBLEGROUPS ==> allowed == callerGroups
  {
    if accessAllGroups || groupMode == VISIBLEGROUPS then courseGroups else callerGroups
  }

  /**
   * The group the activity is scoped to after the check, or the access
   * error: without a request the activity's group is left as it was; with
   * one, the call fails exactly when the group is not allowed, and otherwise
   * the activity is scoped to the requested group.
   */
  function ResolveGroup(
    groupMode: int, groupid: Option<int>, accessAllGroups: bool,
    courseGroups: set<int>, callerGroups: set<int>, instanceGroup: int): (r: Result<int, AccessError>)
    ensures !GroupRequested(groupMode, groupid) ==> r == Success(instanceGroup)
    ensures r.Failure? <==>
      GroupRequested(groupMode, groupid)
      && groupid.value !in AllowedGroups(groupMode, accessAllGroups, courseGroups, callerGroups)
    ensures GroupRequested(groupMode, groupid) && r.Success? ==> r.value == groupid.value
  {
    if GroupRequested(groupMode, groupid) then
      if groupid.value in AllowedGroups(groupMode, accessAllGroups, courseGroups, callerGroups)
      then Success(groupid.value)
      else Failure(NoAccessToGroup)
    else Success(instanceGroup)
  }

  /**
   * In separate-groups mode a caller without the access-all capability may
   * only ask for a group of their own, even one the course has.
   */
  lemma SeparateGroupsNeedMembership(
    groupid: int, courseGroups: set<int>, callerGroups: set<int>, instanceGroup: int)
    requires groupid != 0
    ensures ResolveGroup(SEPARATEGROUPS, Some(groupid), false, courseGroups, callerGroups, instanceGroup).Success?
      <==> groupid in callerGroups
  {
  }

  // ---------------------------------------------------------------------------
  // Tools

  /** The tools enabled for the rendered rows. */
  function ToolList(tools: Option<string>): (r: seq<string>)
    ensures tools.None? ==> r == ["protect", "unprotect", "publish", "unpublish", "delete"]
    ensures tools.Some? ==> Implode(',', r) == tools.value
    ensures |r| >= 1
    ensures forall t :: t in r ==> ',' !in t
  {
    match tools
    case None =>
      DefaultToolsSplit();
      Explode(',', DEFAULT_TOOLS)
    case Some(s) =>
      ImplodeExplode(',', s);
      Explode(',', s)
  }

  /** The default tools string splits into the five default tools. */
  lemma DefaultToolsSplit()
    ensures Explode(',', DEFAULT_TOOLS) == DEFAULT_TOOL_NAMES
  {
    DefaultToolsJoin();
    NoCommaInNames();
    ExplodeImplode(',', DEFAULT_TOOL_NAMES);
  }

  lemma DefaultToolsJoin()
    ensures Implode(',', DEFAULT_TOOL_NAMES) == DEFAULT_TOOLS
  {
    ImplodeFive(',', "protect", "unprotect", "publish", "unpublish", "delete");
  }

  lemma ImplodeFive(sep: char, a: string, b: string, c: string, d: string, e: string)
    ensures Implode(sep, [a, b, c, d, e]) == a + [sep] + b + [sep] + c + [sep] + d + [sep] + e
  {
    ImplodeCons(sep, d, [e]);
    assert [c, d, e][1..] == [d, e];
    ImplodeCons(sep, c, [d, e]);
    assert [b, c, d, e][1..] == [c, d, e];
    ImplodeCons(sep, b, [c, d, e]);
    assert [a, b, c, d, e][1..] == [b, c, d, e];
    ImplodeCons(sep, a, [b, c, d, e]);
  }

  lemma NoCommaInNames()
    ensures forall t :: t in DEFAULT_TOOL_NAMES ==> ',' !in t
  {
  }

  // ---------------------------------------------------------------------------
  // Recordings already imported

  /** The recording ids of a list of recordings. */
  function RecordingIds(rs: seq<ListedRecording>): set<string> {
    set r | r in rs :: r.recordingid
  }

  /** The recordings of rs whose id is not among imported's, in order. */
  function NotImported(rs: seq<ListedRecording>, imported: seq<ListedRecording>): (kept: seq<ListedRecording>)
    ensures |kept| <= |rs|
    ensures forall r :: r in kept ==> r.recordingid !in RecordingIds(imported)
  {
    if |rs| == 0 then []
    else
      var kept := NotImported(rs[..|rs| - 1], imported);
      if rs[|rs| - 1].recordingid in RecordingIds(imported) then kept else kept + [rs[|rs| - 1]]
  }

  /**
   * For each recording, look through the imported ones and drop it when one
   * carries the same recording id.
   */
  method RemoveImported(rs: seq<ListedRecording>, imported: seq<ListedRecording>)
    returns (kept: seq<ListedRecording>)
    ensures kept == NotImported(rs, imported)
  {
    kept := [];
    for i := 0 to |rs|
      invariant kept == NotImported(rs[..i], imported)
    {
      assert rs[..i + 1][..i] == rs[..i];
      var alreadyImported := false;
      for j := 0 to |imported|
        invariant alreadyImported <==> rs[i].recordingid in RecordingIds(imported[..j])
      {
        assert imported[..j + 1] == imported[..j] + [imported[j]];
        if imported[j].recordingid == rs[i].recordingid {
          alreadyImported := true;
        }
      }
      assert imported[..|imported|] == imported;
      if !alreadyImported {
        kept := kept + [rs[i]];
      }
    }
    assert rs[..|rs|] == rs;
  }

  /**
   * A recording is kept exactly when it was listed and no imported recording
   * carries its id; the filter works element by element, so it keeps the
   * listed order, and it removes nothing when no id is shared.
   */
  lemma {:induction false} NotImportedSpec(rs: seq<ListedRecording>, imported: seq<ListedRecording>)
    ensures forall r :: r in NotImported(rs, imported) <==> r in rs && r.recordingid !in RecordingIds(imported)
    ensures RecordingIds(rs) !! RecordingIds(imported) ==> NotImported(rs, imported) == rs
  {
    if |rs| > 0 {
      var init := rs[..|rs| - 1];
      NotImportedSpec(init, imported);
      assert rs == init + [rs[|rs| - 1]];
      assert RecordingIds(init) <= RecordingIds(rs);
    }
  }

  /** Filtering a concatenation filters each part: the order is preserved. */
  lemma {:induction false} NotImportedAppend(a: seq<ListedRecording>, b: seq<ListedRecording>, imported: seq<ListedRecording>)
    ensures NotImported(a + b, imported) == NotImported(a, imported) + NotImported(b, imported)
  {
    if |b| > 0 {
      var init := b[..|b| - 1];
      NotImportedAppend(a, init, imported);
      assert (a + b)[..|a + b| - 1] == a + init;
    } else {
      assert a + b == a;
    }
  }

  // ---------------------------------------------------------------------------
  // Rendered rows

  /** The non-empty rendered rows of rs, in order. */
  function RenderedRows(
    rs: seq<ListedRecording>, render: (int, seq<string>, ListedRecording) -> RenderedRow,
    group: int, tools: seq<string>): (rows: seq<RenderedRow>)
    ensures |rows| <= |rs|
    ensures forall row :: row in rows ==> row != []
  {
    if |rs| == 0 then []
    else
      var rows := RenderedRows(rs[..|rs| - 1], render, group, tools);
      var row := render(group, tools, rs[|rs| - 1]);
      if row == [] then rows else rows + [row]
  }

  /** Render each recording and keep the rows that are not empty. */
  method BuildRows(
    rs: seq<ListedRecording>, render: (int, seq<string>, ListedRecording) -> RenderedRow,
    group: int, tools: seq<string>) returns (data: seq<RenderedRow>)
    ensures data == RenderedRows(rs, render, group, tools)
  {
    data := [];
    for i := 0 to |rs|
      invariant data == RenderedRows(rs[..i], render, group, tools)
    {
      assert rs[..i + 1][..i] == rs[..i];
      var row := render(group, tools, rs[i]);
      if row != [] {
        data := data + [row];
      }
    }
    assert rs[..|rs|] == rs;
  }

  /**
   * The rows are exactly the non-empty renderings of the listed recordings,
   * at most one per recording, and rows of earlier recordings come first.
   */
  lemma {:induction false} RenderedRowsSpec(
    rs: seq<ListedRecording>, render: (int, seq<string>, ListedRecording) -> RenderedRow,
    group: int, tools: seq<string>)
    ensures |RenderedRows(rs, render, group, tools)| <= |rs|
    ensures forall row :: row in RenderedRows(rs, render, group, tools) <==>
      row != [] && exists r :: r in rs && render(group, tools, r) == row
    ensures forall k :: 0 <= k <= |rs| ==>
      RenderedRows(rs, render, group, tools)
        == RenderedRows(rs[..k], render, group, tools) + RenderedRows(rs[k..], render, group, tools)
  {
    if |rs| > 0 {
      var init := rs[..|rs| - 1];
      var last := rs[|rs| - 1];
      RenderedRowsSpec(init, render, group, tools);
      assert rs == init + [last];
      forall k | 0 <= k <= |rs|
        ensures RenderedRows(rs, render, group, tools)
          == RenderedRows(rs[..k], render, group, tools) + RenderedRows(rs[k..], render, group, tools)
      {
        if k < |rs| {
          assert rs[..k] == init[..k];
          assert rs[k..][..|rs[k..]| - 1] == init[k..];
          assert rs[k..][|rs[k..]| - 1] == last;
        } else {
          assert rs[..k] == rs;
          assert rs[k..] == [];
        }
      }
    }
  }

  // ---------------------------------------------------------------------------
  // Columns

  function PlaybackColumn(getString: string -> string): Column {
    Column("playback", getString("view_recording_playback"), "125px", Some("html"), None, Some(true))
  }
  function RecordingColumn(getString: string -> string): Column {
    Column("recording", getString("view_recording_name"), "125px", Some("html"), None, Some(true))
  }
  function DescriptionColumn(getString: string -> string): Column {
    Column("description", getString("view_recording_description"), "250px", Some("html"), Some(true), Some(true))
  }
  function PreviewColumn(getString: string -> string): Column {
    Column("preview", getString("view_recording_preview"), "250px", Some("html"), None, Some(true))
  }
  function DateColumn(getString: string -> string): Column {
    Column("date", getString("view_recording_date"), "225px", Some("html"), Some(true), Some(true))
  }
  function DurationColumn(getString: string -> string): Column {
    Column("duration", getString("view_recording_duration"), "50px", None, Some(true), Some(false))
  }
  function ActionbarColumn(getString: string -> string): Column {
    Column("actionbar", getString("view_recording_actionbar"), "120px", Some("html"), None, Some(true))
  }

  /** The keys of a list of columns, in order. */
  function KeysOf(columns: seq<Column>): seq<string> {
    seq(|columns|, i requires 0 <= i < |columns| => columns[i].key)
  }

  /**
   * Exactly description, date and duration are sortable; every column
   * states allowHTML, and duration alone does not allow HTML.
   */
  predicate FlagsAgree(c: Column) {
    && (c.sortable == Some(true) <==> c.key == "description" || c.key == "date" || c.key == "duration")
    && c.allowHTML.Some?
    && (c.allowHTML == Some(false) <==> c.key == "duration")
  }

  /**
   * The table's columns: playback, recording, description, then preview
   * when previews are enabled, then date and duration, then the action bar
   * when the caller can manage recordings; 5 to 7 columns whose sortable and
   * allowHTML flags follow FlagsAgree.
   */
  function ColumnSchema(previewEnabled: bool, canManage: bool, getString: string -> string): (r: seq<Column>)
    ensures KeysOf(r) ==
      ["playback", "recording", "description"]
      + (if previewEnabled then ["preview"] else [])
      + ["date", "duration"]
      + (if canManage then ["actionbar"] else [])
    ensures 5 <= |r| <= 7
    ensures forall c :: c in r ==> FlagsAgree(c)
  {
    var p, rc, d := PlaybackColumn(getString), RecordingColumn(getString), DescriptionColumn(getString);
    var pv, dt, du := PreviewColumn(getString), DateColumn(getString), DurationColumn(getString);
    var ab := ActionbarColumn(getString);
    FixedColumnsAgree(getString);
    if previewEnabled && canManage then
      var r := [p, rc, d, pv, dt, du, ab];
      assert KeysOf(r) == ["playback", "recording", "description", "preview", "date", "duration", "actionbar"];
      r
    else if previewEnabled then
      var r := [p, rc, d, pv, dt, du];
      assert KeysOf(r) == ["playback", "recording", "description", "preview", "date", "duration"];
      r
    else if canManage then
      var r := [p, rc, d, dt, du, ab];
      assert KeysOf(r) == ["playback", "recording", "description", "date", "duration", "actionbar"];
      r
    else
      var r := [p, rc, d, dt, du];
      assert KeysOf(r) == ["playback", "recording", "description", "date", "duration"];
      r
  }

  lemma FixedColumnsAgree(getString: string -> string)
    ensures FlagsAgree(PlaybackColumn(getString)) && FlagsAgree(RecordingColumn(getString))
    ensures FlagsAgree(DescriptionColumn(getString)) && FlagsAgree(PreviewColumn(getString))
    ensures FlagsAgree(DateColumn(getString)) && FlagsAgree(DurationColumn(getString))
    ensures FlagsAgree(ActionbarColumn(getString))
  {
  }

  /** Build the columns by appending to the three fixed ones. */
  method BuildColumns(previewEnabled: bool, canManage: bool, getString: string -> string)
    returns (columns: seq<Column>)
    ensures columns == ColumnSchema(previewEnabled, canManage, getString)
  {
    columns := [PlaybackColumn(getString), RecordingColumn(getString), DescriptionColumn(getString)];
    if previewEnabled {
      columns := columns + [PreviewColumn(getString)];
    }
    columns := columns + [DateColumn(getString)];
    columns := columns + [DurationColumn(getString)];
    if canManage {
      columns := columns + [ActionbarColumn(getString)];
    }
  }

  // ---------------------------------------------------------------------------
  // Locale and ping interval

  /**
   * The table locale: the tag cut before its first '.', then cut again
   * before the first '_'. A missing separator makes strpos return false,
   * which substr reads as length 0, so the result is then empty.
   */
  function Locale(lang: string): (r: string)
    ensures |r| <= |lang| && r == lang[..|r|]
    ensures '.' !in r && '_' !in r
    ensures '.' !in lang ==> r == ""
    ensures '.' in lang && '_' !in Before(lang, '.') ==> r == ""
    ensures '.' in lang && '_' in Before(lang, '.') ==> |r| < |lang| && lang[|r|] == '_'
  {
    var beforeDot := Prefix(lang, LengthArg(StrPos(lang, '.')));
    Prefix(beforeDot, LengthArg(StrPos(beforeDot, '_')))
  }

  /** "en_us.utf8" gives "en". */
  lemma LocaleOfUsEnglish(lang: string)
    requires lang == "en_us.utf8"
    ensures Locale(lang) == "en"
  {
    var beforeDot := lang[..5];
    assert beforeDot == "en_us";
    StrPosFirst(lang, '.', 5);
    assert beforeDot[..2] == "en";
    StrPosFirst(beforeDot, '_', 2);
  }

  /** The ping interval in milliseconds for a setting in seconds. */
  function PingInterval(seconds: int): (ms: int)
    ensures ms % 1000 == 0 && ms / 1000 == seconds
  {
    seconds * 1000
  }

  // ---------------------------------------------------------------------------
  // The service

  /**
   * The listing service: fails with the access error exactly when a
   * requested group is not allowed; otherwise succeeds with no warnings, and
   * the table holds the non-empty rows rendered for the listed recordings
   * (less those already imported into removeimportedid, when non-zero), the
   * column schema, the locale and the ping interval.
   */
  method Execute(
    req: Request, ctx: Context,
    render: (int, seq<string>, ListedRecording) -> RenderedRow,
    getString: string -> string) returns (result: Result<Response, AccessError>)
    ensures result.Failure? <==>
      GroupRequested(ctx.groupMode, req.groupid)
      && req.groupid.value !in AllowedGroups(ctx.groupMode, ctx.accessAllGroups, ctx.courseGroups, ctx.callerGroups)
    ensures result.Success? ==>
      var group := ResolveGroup(ctx.groupMode, req.groupid, ctx.accessAllGroups,
                                ctx.courseGroups, ctx.callerGroups, ctx.instanceGroup).value;
      var listed := if req.removeimportedid != 0
                    then NotImported(ctx.recordings, ctx.importedRecordings)
                    else ctx.recordings;
      result.value == Response(
        true,
        TableData(
          ctx.activityStatus,
          PingInterval(ctx.pingIntervalSetting),
          Locale(ctx.lang),
          ctx.profileFeatures,
          ColumnSchema(ctx.previewEnabled, ctx.canManageRecordings, getString),
          RenderedRows(listed, render, group, ToolList(req.tools))),
        [])
  {
    var resolved := ResolveGroup(ctx.groupMode, req.groupid, ctx.accessAllGroups,
                                 ctx.courseGroups, ctx.callerGroups, ctx.instanceGroup);
    if resolved.Failure? {
      return Failure(resolved.error);
    }
    var group := resolved.value;
    var tools := ToolList(req.tools);
    var recordings := ctx.recordings;
    if req.removeimportedid != 0 {
      recordings := RemoveImported(recordings, ctx.importedRecordings);
    }
    var data := BuildRows(recordings, render, group, tools);
    var columns := BuildColumns(ctx.previewEnabled, ctx.canManageRecordings, getString);
    var tabledata := TableData(
      ctx.activityStatus, PingInterval(ctx.pingIntervalSetting), Locale(ctx.lang),
      ctx.profileFeatures, columns, data);
    result := Success(Response(true, tabledata, []));
  }
}
