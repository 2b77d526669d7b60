/** The events of shared/localRunTimeline.ts and their sanitiser.

  A stored event is sanitised a second time when it is read. `Lawful` says what the timeline needs of that;
  `JsonIsLawful` proves it of the source's sanitiser, given only that parsing what was rendered gives it back.
  JSON text is built character by character, escapes included, because the bounds are on its length. */
module TimelineEvents {

  import opened Options
  import opened Text

  datatype Kind = TextKind | Commentary | Step | Approval | Status | Unknown(name: string)

  datatype Event = Event(id: int, kind: Kind, data: string)

  datatype Codec = Codec(clean: (Kind, string) -> Option<string>, size: Event -> nat)

  const MAX_SAFE_INTEGER := 9007199254740991

  /** Sanitising what was already sanitised still succeeds, and does not make it longer. */
  ghost predicate Lawful(c: Codec) {
    forall kind, data :: c.clean(kind, data).Some? ==> Stable(c, kind, c.clean(kind, data).value)
  }

  ghost predicate Stable(c: Codec, kind: Kind, data: string) {
    c.clean(kind, data).Some?
    && forall id :: c.size(Event(id, kind, c.clean(kind, data).value)) <= c.size(Event(id, kind, data))
  }

  /** Exactly which events are shown, and that text is shown as it is. */
  lemma SafeIff(c: Codec, e: Event)
    ensures Safe(c, e).Some? <==>
              0 <= e.id <= 9007199254740991 && (e.kind.TextKind? || c.clean(e.kind, e.data).Some?)
    ensures Safe(c, e).Some? ==>
              var r := Safe(c, e).value;
              && r.id == e.id && r.kind == e.kind
              && (if e.kind.TextKind? then r.data == e.data else c.clean(e.kind, e.data) == Some(r.data))
  {
  }

  /** The source's safeEvent, up to what is in an event's data. */
  function Safe(c: Codec, e: Event): Option<Event> {
    if e.id < 0 || e.id > MAX_SAFE_INTEGER then None
    else if e.kind.TextKind? then Some(e)
    else
      var data := c.clean(e.kind, e.data);
      if data.Some? then Some(e.(data := data.value)) else None
  }

  // ---------------------------------------------------------------- JSON text

  function HexDigit(n: nat): char
    requires n < 16
  {
    if n < 10 then n as char + '0' else (n - 10) as char + 'a'
  }

  function EscapedChar(c: char): (s: string)
    ensures |s| >= 1
  {
    if c == '"' || c == '\\' then ['\\', c]
    else if c == '\U{8}' then ['\\', 'b']
    else if c == '\t' then ['\\', 't']
    else if c == '\n' then ['\\', 'n']
    else if c == '\U{C}' then ['\\', 'f']
    else if c == '\r' then ['\\', 'r']
    else if c < ' ' then ['\\', 'u', '0', '0', HexDigit(c as nat / 16), HexDigit(c as nat % 16)]
    else [c]
  }

  function Escaped(s: string): string {
    if s == "" then "" else Escaped(s[..|s| - 1]) + EscapedChar(s[|s| - 1])
  }

  function Quoted(s: string): string {
    ['"'] + Escaped(s) + ['"']
  }

  lemma {:induction false} EscapedConcat(a: string, b: string)
    ensures Escaped(a + b) == Escaped(a) + Escaped(b)
  {
    hide EscapedChar;
    if b == "" {
      assert a + b == a;
    } else {
      var n := |b| - 1;
      EscapedConcat(a, b[..n]);
      assert (a + b)[..|a + b| - 1] == a + b[..n];
    }
  }

  /** How long a text is inside a JSON string. */
  function Weight(s: string): nat {
    |Escaped(s)|
  }

  lemma WeightConcat(a: string, b: string)
    ensures Weight(a + b) == Weight(a) + Weight(b)
  {
    EscapedConcat(a, b);
  }

  /** The weight of a quoted text is that of its parts, twice escaped, and four for the quotes. */
  lemma QuotedWeight(a: string, b: string, c: string)
    ensures Weight(Quoted(b)) <= Weight(Quoted(a + b + c))
  {
    EscapedConcat(a + b, c);
    EscapedConcat(a, b);
    var x, y, z := Escaped(a), Escaped(b), Escaped(c);
    WeightOfQuoted(b);
    WeightOfQuoted(a + b + c);
    WeightConcat(x + y, z);
    WeightConcat(x, y);
  }

  lemma WeightOfQuoted(s: string)
    ensures Weight(Quoted(s)) == Weight(['"']) + Weight(Escaped(s)) + Weight(['"'])
  {
    WeightConcat(['"'] + Escaped(s), ['"']);
    WeightConcat(['"'], Escaped(s));
  }

  // ---------------------------------------------------------------- values of the payload

  /** A JSON value of the payload: missing, a text, a boolean, or anything else, of which it matters what
      String() shows, how JSON.stringify writes it, and whether it is a finite number that is not negative. */
  datatype Value = Absent | Text(s: string) | Bool(b: bool) | Other(shown: string, json: string, isTime: bool)

  function Shown(v: Value): string {
    match v
    case Absent => "undefined"
    case Text(s) => s
    case Bool(b) => if b then "true" else "false"
    case Other(shown, _, _) => shown
  }

  function Rendered(v: Value): string {
    match v
    case Absent => ""
    case Text(s) => Quoted(s)
    case Bool(b) => if b then "true" else "false"
    case Other(_, json, _) => json
  }

  /** The properties of a parsed payload that are ever looked at. Those of metadata are missing when it is no
      object. */
  datatype Raw = Raw(
    id: Value, text: Value, timestamp: Value, toolName: Value, stepType: Value, status: Value, title: Value,
    startedAt: Value, completedAt: Value, filePath: Value, operation: Value, confirmed: Value)

  const NOTHING := Raw(Absent, Absent, Absent, Absent, Absent, Absent, Absent, Absent, Absent, Absent, Absent, Absent)

  /** A sanitised payload. */
  datatype Payload =
    | CommentaryOf(id: string, text: string, timestamp: Value)
    | StepOf(id: string, tool: string, stepType: Value, status: string, title: string, startedAt: Value,
             completedAt: Value, path: Option<string>, operation: Option<string>, confirmed: Option<bool>)
    | ApprovalOf(id: string, status: string)
    | StatusOf(value: Value)

  predicate IsLetter(c: char) {
    'a' <= c <= 'z' || 'A' <= c <= 'Z'
  }

  predicate IsIdentifierChar(c: char) {
    IsLetter(c) || '0' <= c <= '9' || c == '_' || c == ':' || c == '.' || c == '-'
  }

  /** The source's identifier, with None for the empty text. */
  function Identifier(v: Value): Option<string> {
    if v.Text? && 1 <= |v.s| <= 120 && forall i :: 0 <= i < |v.s| ==> IsIdentifierChar(v.s[i]) then Some(v.s) else None
  }

  function Timestamp(v: Value): Value {
    if v.Other? && v.isTime then v else Absent
  }

  predicate IsCategory(s: string) {
    s in ["search", "browser", "file", "code", "data", "communication", "other"]
  }

  predicate IsStepType(s: string) {
    s in ["web_search", "file_read", "tool_call", "model_reasoning", "final"]
  }

  predicate IsStatus(s: string) {
    s in ["queued", "running", "waiting_for_approval", "stopping", "status_unknown"]
  }

  function Tool(v: Value): string {
    if IsCategory(Shown(v)) then Shown(v) else "other"
  }

  function StepType(v: Value): Value {
    if IsStepType(Shown(v)) then v else Text("tool_call")
  }

  function StepStatus(v: Value): string {
    if v == Text("completed") then "completed" else if v == Text("failed") then "failed" else "running"
  }

  function ApprovalStatus(v: Value): string {
    if v == Text("resolved") then "resolved" else "expired"
  }

  function TitlePrefix(): string {
    "chatWorkspace.toolStep"
  }

  /** Only translation keys survive. */
  function Title(v: Value): string {
    if v.Text? && |v.s| > |TitlePrefix()| && TitlePrefix() <= v.s
       && forall i :: |TitlePrefix()| <= i < |v.s| ==> IsLetter(v.s[i])
    then v.s
    else "chatWorkspace.timelineGenericStep"
  }

  /** String.prototype.toLowerCase, as far as it can yield an ASCII word: the Kelvin sign becomes a k. */
  function Lower(s: string): string {
    seq(|s|, i requires 0 <= i < |s| =>
      if 'A' <= s[i] <= 'Z' then s[i] - 'A' + 'a' else if s[i] == '\U{212A}' then 'k' else s[i])
  }

  /** The source's classifyLocalFileOperation. */
  function Operation(v: Value): Option<string> {
    if !v.Text? then None
    else
      var w := Lower(v.s);
      if w in ["delete", "deleted", "remove", "removed", "unlink", "delete_file", "remove_file", "file.deleted"]
      then Some("deleted")
      else if w in ["create", "created", "add", "added", "write_new", "create_file", "file.created"] then Some("added")
      else if w in ["edit", "edited", "modify", "modified", "update", "updated", "patch", "replace", "edit_file",
                    "patch_file", "file.modified"]
      then Some("modified")
      else if w in ["write", "write_file", "file_write", "unknown"] then Some("unknown")
      else if w in ["read", "read_file", "file_read", "view", "view_file", "referenced"] then Some("referenced")
      else None
  }

  // ---------------------------------------------------------------- paths

  predicate IsForbidden(c: char) {
    c < ' ' || c == '\U{7F}' || c in ['\\', ':', '%', '?', '#', '*', '<', '>', '|', '"', '`', '$']
  }

  predicate HasDots(s: string) {
    |s| >= 3 && (s[..3] == "..." || HasDots(s[1..]))
  }

  function WithoutPrefix(s: string, prefix: string): string {
    if prefix <= s then s[|prefix|..] else s
  }

  /** The source's safeLocalEvidencePath. Whether a path looks sensitive is the codec's business. */
  function SafePath(sensitive: string -> bool, v: Value): Option<string> {
    if !v.Text? || |v.s| > 240 then None
    else
      var path := Trim(v.s);
      if path == "" || (exists c :: c in path && IsForbidden(c)) || HasDots(path) || '\U{2026}' in path then None
      else
        var inner := WithoutPrefix(WithoutPrefix(path, "/opt/data/"), "./");
        var parts := Split(inner, '/');
        if (inner != "" && inner[0] == '/') || "" in parts || "." in parts || ".." in parts
           || sensitive(inner)
        then None
        else Some(inner)
  }

  /** A second pass may shorten a path again or drop it: cutting off the data directory can leave a space in
      front. What comes out is always a piece of what went in. */
  lemma PathShrinks(sensitive: string -> bool, s: string)
    requires SafePath(sensitive, Text(s)).Some?
    ensures Weight(Quoted(SafePath(sensitive, Text(s)).value)) <= Weight(Quoted(s))
  {
    var path := Trim(s);
    var once := WithoutPrefix(path, "/opt/data/");
    var inner := WithoutPrefix(once, "./");
    assert SafePath(sensitive, Text(s)).value == inner;
    hide SafePath, Weight, Quoted, WithoutPrefix, Trim;
    var a, b := TrimIsPiece(s);
    QuotedWeight(a, path, b);
    PrefixIsPiece(path, "/opt/data/");
    PrefixIsPiece(once, "./");
  }

  lemma PrefixIsPiece(s: string, prefix: string)
    ensures Weight(Quoted(WithoutPrefix(s, prefix))) <= Weight(Quoted(s))
  {
    hide Weight, Quoted;
    if prefix <= s {
      QuotedWeight(prefix, s[|prefix|..], "");
      assert prefix + s[|prefix|..] + "" == s;
    }
  }

  lemma {:induction false} TrimIsPiece(s: string) returns (a: string, b: string)
    ensures s == a + Trim(s) + b
    decreases |s|
  {
    a, b := "", "";
    if s != "" {
      if IsSpace(s[0]) {
        a, b := TrimIsPiece(s[1..]);
        a := [s[0]] + a;
        assert s == [s[0]] + s[1..];
      } else if IsSpace(s[|s| - 1]) {
        a, b := TrimIsPiece(s[..|s| - 1]);
        b := b + [s[|s| - 1]];
        assert s == s[..|s| - 1] + [s[|s| - 1]];
      }
    }
  }

  lemma TrimIsShorter(s: string)
    ensures Trim(s) == s || |Trim(s)| < |s|
  {
    var a, b := TrimIsPiece(s);
    assert a == "" && b == "" ==> "" + Trim(s) + "" == Trim(s);
  }

  lemma {:induction false} DotsOfRest(s: string, k: nat)
    requires k <= |s| && HasDots(s[k..])
    ensures HasDots(s)
  {
    if k > 0 {
      assert s[1..][k - 1..] == s[k..];
      DotsOfRest(s[1..], k - 1);
    }
  }

  lemma DotSlashPart(s: string)
    requires "./" <= s
    ensures "." in Split(s, '/')
  {
    assert s[0] == '.' && s[1..][0] == '/';
    assert Split(s[1..], '/')[0] == "";
    assert Split(s, '/')[0] == [s[0]] + Split(s[1..], '/')[0] == ".";
  }

  lemma EmptyPart()
    ensures "" in Split("", '/')
  {
    assert Split("", '/')[0] == "";
  }

  /** A path is stored as it is exactly when no space is left at its ends. */
  lemma PathIsStableIff(sensitive: string -> bool, s: string)
    requires SafePath(sensitive, Text(s)).Some?
    ensures var inner := SafePath(sensitive, Text(s)).value;
            SafePath(sensitive, Text(inner)) == Some(inner) <==> Trim(inner) == inner
  {
    var k, inner := PathIsRest(sensitive, s);
    if Trim(inner) == inner {
      TrimmedPathIsStable(sensitive, s, k, inner);
    } else if SafePath(sensitive, Text(inner)).Some? {
      var _, again := PathIsRest(sensitive, inner);
      TrimIsShorter(inner);
    }
    hide *;
  }

  lemma TrimmedPathIsStable(sensitive: string -> bool, s: string, k: nat, inner: string)
    requires k <= |Trim(s)| && inner == Trim(s)[k..] && SafePath(sensitive, Text(s)) == Some(inner)
    requires Trim(inner) == inner
    ensures SafePath(sensitive, Text(inner)) == Some(inner)
  {
    hide Trim, HasDots, IsForbidden, Split;
    TrimIsShorter(s);
    if HasDots(inner) {
      DotsOfRest(Trim(s), k);
    }
    if "./" <= inner {
      DotSlashPart(inner);
    }
    EmptyPart();
  }

  lemma PathIsRest(sensitive: string -> bool, s: string) returns (k: nat, inner: string)
    requires SafePath(sensitive, Text(s)).Some?
    ensures k <= |Trim(s)| && inner == Trim(s)[k..] && SafePath(sensitive, Text(s)) == Some(inner)
  {
    hide Trim, HasDots, IsForbidden, Split;
    var path := Trim(s);
    var once := WithoutPrefix(path, "/opt/data/");
    inner := WithoutPrefix(once, "./");
    k := |path| - |inner|;
  }

  // ---------------------------------------------------------------- interim commentary

  /** The source's text.trim().slice(0, 8192). */
  function CommentaryText(text: string): string {
    var t := Trim(text);
    if |t| <= 8192 then t else t[..8192]
  }

  /** Cutting after trimming can leave a space at the end, so a second pass may shorten the text again. But
      it never empties it, and what it leaves is the beginning of what was there. */
  lemma CommentaryIsStable(text: string)
    requires CommentaryText(text) != ""
    ensures CommentaryText(CommentaryText(text)) != ""
    ensures CommentaryText(CommentaryText(text)) <= CommentaryText(text)
  {
    TrimStartsInk(text);
    TrimOfInk(CommentaryText(text));
  }

  lemma {:induction false} TrimStartsInk(s: string)
    ensures Trim(s) != "" ==> !IsSpace(Trim(s)[0])
    decreases |s|
  {
    if s != "" && IsSpace(s[0]) {
      TrimStartsInk(s[1..]);
    } else if s != "" && IsSpace(s[|s| - 1]) {
      TrimStartsInk(s[..|s| - 1]);
    }
  }

  lemma {:induction false} TrimOfInk(s: string)
    requires s != "" && !IsSpace(s[0])
    ensures Trim(s) != "" && Trim(s) <= s
    decreases |s|
  {
    if IsSpace(s[|s| - 1]) {
      TrimOfInk(s[..|s| - 1]);
    }
  }

  // ---------------------------------------------------------------- the sanitiser

  /** A path that is shown lies inside the workspace: it is what was given but for spaces around it and for the data
    directory, it is relative, steps nowhere up, hides nothing and is not sensitive. */
  lemma ShownPathsStayInside(sensitive: string -> bool, v: Value) returns (data: string, here: string)
    requires SafePath(sensitive, v).Some?
    ensures data == "" || data == "/opt/data/"
    ensures here == "" || here == "./"
    ensures var path := SafePath(sensitive, v).value;
            && v.Text? && |v.s| <= 240 && Trim(v.s) == data + here + path
            && path != "" && path[0] != '/' && !sensitive(path)
            && "" !in Split(path, '/') && "." !in Split(path, '/') && ".." !in Split(path, '/')
            && (forall c :: c in path ==> IsHarmless(c))
  {
    hide Trim, HasDots, Split, IsForbidden;
    var t := Trim(v.s);
    var once := WithoutPrefix(t, "/opt/data/");
    var path := WithoutPrefix(once, "./");
    data := Cut(t, "/opt/data/");
    here := Cut(once, "./");
    assert t == (data + here) + path;
    EmptyPart();
    forall c | c in path ensures IsHarmless(c) {
      assert c in t;
      HarmlessIff(c);
    }
  }

  /** And every such path is shown, if it is short enough and nothing in it was left out. */
  lemma PathIsShownIff(sensitive: string -> bool, v: Value)
    ensures SafePath(sensitive, v).Some? <==>
              && v.Text? && |v.s| <= 240
              && var t := Trim(v.s);
                 var path := WithoutPrefix(WithoutPrefix(t, "/opt/data/"), "./");
                 && (forall c :: c in t ==> IsHarmless(c))
                 && (forall i :: 0 <= i <= |t| - 3 ==> !(t[i] == t[i + 1] == t[i + 2] == '.'))
                 && "" !in Split(path, '/') && "." !in Split(path, '/') && ".." !in Split(path, '/')
                 && !sensitive(path)
  {
    hide Trim, HasDots, Split, IsForbidden, IsHarmless;
    if v.Text? {
      var t := Trim(v.s);
      DotsIff(t);
      EmptyPart();
      LeadingSlash(WithoutPrefix(WithoutPrefix(t, "/opt/data/"), "./"));
      forall c ensures IsHarmless(c) <==> !IsForbidden(c) && c != '\U{2026}' {
        HarmlessIff(c);
      }
    }
  }

  /** No control character, no ellipsis, and nothing a shell or a URL would take for something else. */
  predicate IsHarmless(c: char) {
    ' ' <= c && c !in ['\\', ':', '%', '?', '#', '*', '<', '>', '|', '"', '`', '$', '\U{7F}', '\U{2026}']
  }

  lemma HarmlessIff(c: char)
    ensures IsHarmless(c) <==> !IsForbidden(c) && c != '\U{2026}'
  {
  }

  lemma {:induction false} DotsIff(s: string)
    ensures HasDots(s) <==> exists i :: 0 <= i <= |s| - 3 && s[i] == s[i + 1] == s[i + 2] == '.'
  {
    if |s| >= 3 {
      DotsIff(s[1..]);
      assert s[..3] == [s[0], s[1], s[2]];
      assert forall i :: 0 <= i < |s| - 1 ==> s[1..][i] == s[i + 1];
      if i :| 0 < i <= |s| - 3 && s[i] == s[i + 1] == s[i + 2] == '.' {
        assert s[1..][i - 1] == s[1..][i] == s[1..][i + 1] == '.';
      }
    }
  }

  lemma LeadingSlash(s: string)
    ensures s != "" && s[0] == '/' ==> "" in Split(s, '/')
  {
    assert s != "" && s[0] == '/' ==> Split(s, '/')[0] == "";
  }

  lemma Cut(s: string, prefix: string) returns (cut: string)
    ensures (cut == "" || cut == prefix) && s == cut + WithoutPrefix(s, prefix)
  {
    cut := if prefix <= s then prefix else "";
  }

  function StepPayload(sensitive: string -> bool, id: string, r: Raw): Payload {
    StepOf(id, Tool(r.toolName), StepType(r.stepType), StepStatus(r.status), Title(r.title), Timestamp(r.startedAt),
           Timestamp(r.completedAt), SafePath(sensitive, r.filePath), Operation(r.operation),
           if r.confirmed.Bool? then Some(r.confirmed.b) else None)
  }

  /** The four kinds of the source's safeEvent. */
  function Sanitise(sensitive: string -> bool, kind: Kind, r: Raw): Option<Payload> {
    var id := Identifier(r.id);
    match kind
    case Commentary =>
      var text := if r.text.Text? then CommentaryText(r.text.s) else "";
      if id.None? || text == "" then None else Some(CommentaryOf(id.value, text, Timestamp(r.timestamp)))
    case Step => if id.None? then None else Some(StepPayload(sensitive, id.value, r))
    case Approval => if id.None? then None else Some(ApprovalOf(id.value, ApprovalStatus(r.status)))
    case Status => if IsStatus(Shown(r.status)) then Some(StatusOf(r.status)) else None
    case _ => None
  }

  /** A name that cannot carry anything but a name. */
  predicate IsName(v: Value) {
    v.Text? && 1 <= |v.s| <= 120
    && forall i :: 0 <= i < |v.s| ==>
         '0' <= v.s[i] <= '9' || 'a' <= v.s[i] <= 'z' || 'A' <= v.s[i] <= 'Z' || v.s[i] in {'_', ':', '.', '-'}
  }

  /** Commentary is shown trimmed, and up to 8192 characters of it. */
  lemma CommentaryIsShown(sensitive: string -> bool, r: Raw)
    requires Sanitise(sensitive, Commentary, r).Some?
    ensures var p := Sanitise(sensitive, Commentary, r).value;
            && p.CommentaryOf? && Text(p.id) == r.id && r.text.Text?
            && p.text <= Trim(r.text.s)
            && |p.text| == (if |Trim(r.text.s)| <= 8192 then |Trim(r.text.s)| else 8192)
            && (p.timestamp == r.timestamp || p.timestamp == Absent)
  {
    hide Trim;
  }

  /** Exactly which payloads are shown at all. */
  lemma SanitisedIff(sensitive: string -> bool, kind: Kind, r: Raw)
    ensures Sanitise(sensitive, kind, r).Some? <==>
            match kind
            case Commentary => IsName(r.id) && r.text.Text? && Trim(r.text.s) != ""
            case Step => IsName(r.id)
            case Approval => IsName(r.id)
            case Status =>
              Shown(r.status) in {"queued", "running", "waiting_for_approval", "stopping", "status_unknown"}
            case _ => false
  {
    hide Trim, StepPayload, ApprovalStatus, Timestamp;
    assert Identifier(r.id).Some? <==> IsName(r.id);
    hide Identifier, IsName;
  }

  /** What is shown of a step is what it says as far as that comes from a fixed list, and a stock word otherwise; a
    title is a translation key. */
  lemma StepsSayNothingElse(sensitive: string -> bool, r: Raw)
    requires Sanitise(sensitive, Step, r).Some?
    ensures var p := Sanitise(sensitive, Step, r).value;
            && p.StepOf? && Text(p.id) == r.id
            && (if Shown(r.toolName) in {"search", "browser", "file", "code", "data", "communication", "other"}
                then p.tool == Shown(r.toolName) else p.tool == "other")
            && (if Shown(r.stepType) in {"web_search", "file_read", "tool_call", "model_reasoning", "final"}
                then p.stepType == r.stepType else p.stepType == Text("tool_call"))
            && (p.status == "completed" <==> r.status == Text("completed"))
            && (p.status == "failed" <==> r.status == Text("failed"))
            && p.status in {"running", "completed", "failed"}
            && (p.title == "chatWorkspace.timelineGenericStep" || (Text(p.title) == r.title && IsKey(p.title)))
            && (r.title.Text? && IsKey(r.title.s) ==> p.title == r.title.s)
            && (p.confirmed.Some? <==> r.confirmed.Bool?) && (r.confirmed.Bool? ==> p.confirmed == Some(r.confirmed.b))
            && p.path == SafePath(sensitive, r.filePath) && p.operation == Operation(r.operation)
            && (p.startedAt == r.startedAt || p.startedAt == Absent)
            && (p.completedAt == r.completedAt || p.completedAt == Absent)
  {
    hide SafePath, Operation, TitlePrefix, IsLetter;
    TitleIs(r.title);
    hide Title, IsKey;
  }

  predicate IsKey(s: string) {
    && |s| > 22 && "chatWorkspace.toolStep" <= s
    && forall i :: 22 <= i < |s| ==> 'a' <= s[i] <= 'z' || 'A' <= s[i] <= 'Z'
  }

  lemma TitleIs(v: Value)
    ensures Title(v) == if v.Text? && IsKey(v.s) then v.s else "chatWorkspace.timelineGenericStep"
  {
    var prefix := TitlePrefix();
    assert prefix == "chatWorkspace.toolStep" && |prefix| == 22;
    hide TitlePrefix;
  }

  /** The object that is written, as it is when it is parsed again. */
  function AsRaw(p: Payload): Raw {
    match p
    case CommentaryOf(id, text, timestamp) => NOTHING.(id := Text(id), text := Text(text), timestamp := timestamp)
    case StepOf(id, tool, stepType, status, title, startedAt, completedAt, path, operation, confirmed) =>
      Raw(Text(id), Absent, Absent, Text(tool), stepType, Text(status), Text(title), startedAt, completedAt,
          TextOr(path), TextOr(operation), if confirmed.Some? then Bool(confirmed.value) else Absent)
    case ApprovalOf(id, status) => NOTHING.(id := Text(id), status := Text(status))
    case StatusOf(value) => NOTHING.(status := value)
  }

  function TextOr(x: Option<string>): Value {
    if x.Some? then Text(x.value) else Absent
  }

  // ---------------------------------------------------------------- writing

  function Member(name: string, v: Value): string {
    if v.Absent? then "" else [',', '"'] + name + ['"', ':'] + Rendered(v)
  }

  /** The members of metadata after the path. */
  function Tail(operation: Option<string>, confirmed: Option<bool>): string {
    var op := if operation.None? then "" else "\"operation\":" + Quoted(operation.value);
    var co := if confirmed.None? then ""
              else "\"file_evidence_confirmed\":" + (if confirmed.value then "true" else "false");
    if op == "" || co == "" then op + co else op + "," + co
  }

  function Metadata(path: Option<string>, tail: string): string {
    if path.None? then "{" + tail + "}"
    else "{\"file_path\":" + Quoted(path.value) + ((if tail == "" then "" else "," + tail) + "}")
  }

  function StepHead(p: Payload): string
    requires p.StepOf?
  {
    "{\"id\":" + Quoted(p.id) + Member("tool_name", Text(p.tool)) + Member("stepType", p.stepType)
    + Member("status", Text(p.status)) + Member("title", Text(p.title)) + Member("startedAt", p.startedAt)
    + Member("completedAt", p.completedAt) + ",\"metadata\":"
  }

  function Written(p: Payload): string {
    match p
    case CommentaryOf(id, text, timestamp) =>
      ("{\"id\":" + Quoted(id) + ",\"text\":") + Quoted(text) + (Member("timestamp", timestamp) + "}")
    case StepOf(_, _, _, _, _, _, _, path, operation, confirmed) =>
      StepHead(p) + Metadata(path, Tail(operation, confirmed)) + "}"
    case ApprovalOf(id, status) => "{\"id\":" + Quoted(id) + Member("status", Text(status)) + "}"
    case StatusOf(value) => "{\"status\":" + Rendered(value) + "}"
  }

  function Digits(n: nat): string {
    (if n < 10 then "" else Digits(n / 10)) + [(n % 10) as char + '0']
  }

  function KindName(kind: Kind): string {
    match kind
    case TextKind => "text"
    case Commentary => "commentary"
    case Step => "step"
    case Approval => "approval"
    case Status => "status"
    case Unknown(name) => name
  }

  /** JSON.stringify of an event. */
  function WrittenEvent(e: Event): string {
    ("{\"id\":" + (if e.id < 0 then "-" + Digits(-e.id) else Digits(e.id))
     + ",\"event\":" + Quoted(KindName(e.kind)) + ",\"data\":")
    + Quoted(e.data) + "}"
  }

  function Cleaned(parse: string -> Option<Raw>, sensitive: string -> bool, kind: Kind, data: string): Option<string> {
    var raw := parse(data);
    var p := if raw.Some? then Sanitise(sensitive, kind, raw.value) else None;
    if p.Some? then Some(Written(p.value)) else None
  }

  function Json(parse: string -> Option<Raw>, sensitive: string -> bool): Codec {
    Codec((kind, data) => Cleaned(parse, sensitive, kind, data), e => |WrittenEvent(e)|)
  }

  // ---------------------------------------------------------------- the law holds

  /** JSON.parse undoes JSON.stringify on the objects the sanitiser writes. */
  ghost predicate Parses(parse: string -> Option<Raw>, sensitive: string -> bool) {
    forall kind, data :: parse(data).Some? ==> ParsesAgain(parse, Sanitise(sensitive, kind, parse(data).value))
  }

  ghost predicate ParsesAgain(parse: string -> Option<Raw>, p: Option<Payload>) {
    p.Some? ==> parse(Written(p.value)) == Some(AsRaw(p.value))
  }

  /** What a second pass changes: the end of commentary, and the path. */
  function Again(sensitive: string -> bool, p: Payload): Payload {
    match p
    case CommentaryOf(_, text, _) => p.(text := CommentaryText(text))
    case StepOf(_, _, _, _, _, _, _, path, _, _) =>
      p.(path := if path.None? then None else SafePath(sensitive, Text(path.value)))
    case _ => p
  }

  /** The second pass changes nothing exactly when nothing was left to trim. */
  lemma SecondPassChangesNothingIff(sensitive: string -> bool, kind: Kind, r: Raw)
    requires Sanitise(sensitive, kind, r).Some?
    ensures var p := Sanitise(sensitive, kind, r).value;
            Again(sensitive, p) == p <==>
            && (p.CommentaryOf? ==> Trim(p.text) == p.text)
            && (p.StepOf? && p.path.Some? ==> Trim(p.path.value) == p.path.value)
  {
    hide Trim, Identifier, Timestamp, StepStatus, ApprovalStatus, Tool, StepType, Title, Operation, SafePath, IsStatus;
    var p := Sanitise(sensitive, kind, r).value;
    if p.CommentaryOf? {
      assert |p.text| <= 8192;
      TrimIsShorter(p.text);
    } else if p.StepOf? && p.path.Some? {
      MissingIsNothing(sensitive);
      NoText(sensitive, r.filePath);
      PathIsStableIff(sensitive, r.filePath.s);
    }
  }

  lemma NoText(sensitive: string -> bool, v: Value)
    ensures SafePath(sensitive, v).Some? ==> v.Text?
  {
  }

  lemma ScalarsAreStable(v: Value)
    ensures Identifier(v).Some? ==> Identifier(Text(Identifier(v).value)) == Identifier(v)
    ensures Timestamp(Timestamp(v)) == Timestamp(v)
    ensures StepStatus(Text(StepStatus(v))) == StepStatus(v)
    ensures ApprovalStatus(Text(ApprovalStatus(v))) == ApprovalStatus(v)
  {
  }

  lemma ToolIsStable(v: Value)
    ensures Tool(Text(Tool(v))) == Tool(v)
  {
    assert IsCategory("other");
    hide IsCategory;
  }

  lemma StepTypeIsStable(v: Value)
    ensures StepType(StepType(v)) == StepType(v)
  {
    hide IsStepType;
  }

  lemma TitleIsStable(v: Value)
    ensures Title(Text(Title(v))) == Title(v)
  {
    hide TitlePrefix;
  }

  lemma OperationIsStable(v: Value)
    ensures Operation(v).Some? ==> Operation(Text(Operation(v).value)) == Operation(v)
  {
    assert Lower("deleted") == "deleted" && Lower("added") == "added" && Lower("modified") == "modified";
    assert Lower("unknown") == "unknown" && Lower("referenced") == "referenced";
    hide Lower;
  }

  /** Sanitising what was sanitised succeeds and changes nothing else. */
  lemma SanitisedAgain(sensitive: string -> bool, kind: Kind, r: Raw)
    requires Sanitise(sensitive, kind, r).Some?
    ensures var p := Sanitise(sensitive, kind, r).value;
            && Sanitise(sensitive, kind, AsRaw(p)) == Some(Again(sensitive, p))
            && (p.CommentaryOf? ==> CommentaryText(p.text) <= p.text)
  {
    hide Identifier, Timestamp, StepStatus, ApprovalStatus, Tool, StepType, Title, Operation, CommentaryText, SafePath,
         IsStatus;
    ScalarsAreStable(r.id);
    ScalarsAreStable(r.status);
    ScalarsAreStable(r.timestamp);
    ScalarsAreStable(r.startedAt);
    ScalarsAreStable(r.completedAt);
    ToolIsStable(r.toolName);
    StepTypeIsStable(r.stepType);
    TitleIsStable(r.title);
    OperationIsStable(r.operation);
    MissingIsNothing(sensitive);
    if kind.Commentary? {
      CommentaryIsStable(r.text.s);
    }
  }

  lemma MissingIsNothing(sensitive: string -> bool)
    ensures SafePath(sensitive, Absent).None? && Operation(Absent).None?
  {
  }

  lemma CommentaryShrinks(p: Payload, q: string)
    requires p.CommentaryOf? && q <= p.text
    ensures Weight(Written(p.(text := q))) <= Weight(Written(p))
  {
    var a := "{\"id\":" + Quoted(p.id) + ",\"text\":";
    var b := Member("timestamp", p.timestamp) + "}";
    assert p.text == "" + q + p.text[|q|..];
    QuotedWeight("", q, p.text[|q|..]);
    assert Written(p) == a + Quoted(p.text) + b && Written(p.(text := q)) == a + Quoted(q) + b;
    hide Weight, Quoted, Written;
    WeightOfThree(a, Quoted(p.text), b);
    WeightOfThree(a, Quoted(q), b);
  }

  lemma WeightOfThree(a: string, b: string, c: string)
    ensures Weight(a + b + c) == Weight(a) + Weight(b) + Weight(c)
  {
    WeightConcat(a + b, c);
    WeightConcat(a, b);
  }

  lemma MetadataShrinks(path: string, again: Option<string>, tail: string)
    requires again.Some? ==> Weight(Quoted(again.value)) <= Weight(Quoted(path))
    ensures Weight(Metadata(again, tail)) <= Weight(Metadata(Some(path), tail))
  {
    var a, b := "{\"file_path\":", (if tail == "" then "" else "," + tail) + "}";
    assert Metadata(Some(path), tail) == a + Quoted(path) + b;
    WeightOfThree(a, Quoted(path), b);
    if again.Some? {
      assert Metadata(again, tail) == a + Quoted(again.value) + b;
      WeightOfThree(a, Quoted(again.value), b);
    } else {
      assert a == "{" + "\"file_path\":";
      WeightConcat("{", "\"file_path\":");
      WeightOfThree("{", tail, "}");
      assert (if tail == "" then "" else "," + tail) == (if tail == "" then "" else ",") + tail;
      WeightOfThree(if tail == "" then "" else ",", tail, "}");
    }
  }

  lemma AgainIsNoLonger(sensitive: string -> bool, p: Payload)
    requires p.CommentaryOf? ==> CommentaryText(p.text) <= p.text
    ensures Weight(Written(Again(sensitive, p))) <= Weight(Written(p))
  {
    hide Weight, Quoted, SafePath, CommentaryText, Metadata, Tail;
    match p
    case CommentaryOf(_, text, _) => CommentaryShrinks(p, CommentaryText(text));
    case StepOf(_, _, _, _, _, _, _, path, operation, confirmed) =>
      if path.Some? {
        var again := SafePath(sensitive, Text(path.value));
        if again.Some? {
          PathShrinks(sensitive, path.value);
        }
        var tail := Tail(operation, confirmed);
        MetadataShrinks(path.value, again, tail);
        assert StepHead(p.(path := again)) == StepHead(p);
        WeightOfThree(StepHead(p), Metadata(path, tail), "}");
        WeightOfThree(StepHead(p), Metadata(again, tail), "}");
      }
    case _ =>
  }

  lemma EventSize(id: int, kind: Kind, data: string)
    ensures |WrittenEvent(Event(id, kind, data))| == |WrittenEvent(Event(id, kind, ""))| + Weight(data)
  {
  }

  /** The source's sanitiser is as the timeline needs it, whatever it takes for a sensitive path. */
  lemma JsonIsLawful(parse: string -> Option<Raw>, sensitive: string -> bool)
    requires Parses(parse, sensitive)
    ensures Lawful(Json(parse, sensitive))
  {
    var c := Json(parse, sensitive);
    forall kind, data | c.clean(kind, data).Some? ensures Stable(c, kind, c.clean(kind, data).value) {
      CleanedIsStable(parse, sensitive, kind, data);
    }
  }

  lemma CleanedIsStable(parse: string -> Option<Raw>, sensitive: string -> bool, kind: Kind, data: string)
    requires Parses(parse, sensitive) && Cleaned(parse, sensitive, kind, data).Some?
    ensures Stable(Json(parse, sensitive), kind, Cleaned(parse, sensitive, kind, data).value)
  {
    hide Sanitise, Written, Again, AsRaw, WrittenEvent, Weight, CommentaryText;
    var raw := parse(data).value;
    var p := Sanitise(sensitive, kind, raw).value;
    SanitisedAgain(sensitive, kind, raw);
    assert ParsesAgain(parse, Sanitise(sensitive, kind, raw));
    var q := Again(sensitive, p);
    AgainIsNoLonger(sensitive, p);
    assert Cleaned(parse, sensitive, kind, Written(p)) == Some(Written(q));
    hide Cleaned, Parses;
    forall id ensures |WrittenEvent(Event(id, kind, Written(q)))| <= |WrittenEvent(Event(id, kind, Written(p)))| {
      EventSize(id, kind, Written(q));
      EventSize(id, kind, Written(p));
    }
  }
}
