/**
 * From an uploaded file's name to its object key and its parser: app/ingestion/storage.py,
 * app/storage/keying.py, app/api/routes/files.py and app/parsers/dispatcher.py.
 */
module Naming {
  import opened Wrappers
  import opened Text

  datatype NameError =
    | NoFilename
    | UnsafeFilename
    | UnsupportedType(suffix: string)
    | UnsafeSegment(field: string)
    | TooLarge(limit: int)

  // ---- characters ----

  /** The characters no step of the chain ever touches: A-Z, a-z, 0-9, '.', '-'. */
  predicate IsKept(c: char) {
    'A' <= c <= 'Z' || 'a' <= c <= 'z' || '0' <= c <= '9' || c == '.' || c == '-'
  }

  /** By code point: the letters and digits of ASCII, the dash (45) and the dot (46). */
  lemma KeptAre(c: char)
    ensures IsKept(c) <==>
            var n := c as int;
            65 <= n <= 90 || 97 <= n <= 122 || 48 <= n <= 57 || n == 45 || n == 46
  {
  }

  predicate IsSafe(c: char) {
    IsKept(c) || c == '_'
  }

  predicate IsUnsafe(c: char) {
    !IsSafe(c)
  }

  predicate IsUnderscore(c: char) {
    c == '_'
  }

  predicate IsDots(name: string) {
    name == "" || name == "." || name == ".."
  }

  ghost predicate SafeName(name: string) {
    AllChars(name, IsSafe) && !IsDots(name)
  }

  // ---- paths ----

  /** `PurePosixPath(path).name`: empty and "." components do not count. */
  function PathName(path: string): string {
    LastComponent(Split(path, '/'))
  }

  function LastComponent(parts: seq<string>): string {
    if parts == [] then ""
    else
      var last := parts[|parts| - 1];
      if last == "" || last == "." then LastComponent(parts[..|parts| - 1]) else last
  }

  lemma PlainNameIsItsOwnPathName(name: string)
    requires '/' !in name && name != "."
    ensures PathName(name) == name
  {
    SplitWithout(name, '/');
    assert LastComponent([]) == "";
  }

  lemma PathNameOfFile(dir: string, name: string)
    requires '/' !in name && name != "" && name != "."
    ensures PathName(dir + "/" + name) == name
  {
    SplitAtLast(dir, name);
  }

  lemma {:induction false} SplitAtLast(dir: string, name: string)
    requires '/' !in name
    ensures Split(dir + "/" + name, '/') == Split(dir, '/') + [name]
  {
    var whole := dir + "/" + name;
    if dir == "" {
      SplitWithout(name, '/');
      assert whole[1..] == name;
    } else {
      SplitAtLast(dir[1..], name);
      assert whole[1..] == dir[1..] + "/" + name;
    }
  }

  /** Trailing slashes and "." components are not part of a name. */
  lemma TrailingDotsAreIgnored(path: string)
    ensures PathName(path + "/") == PathName(path)
    ensures PathName(path + "/" + ".") == PathName(path)
  {
    SplitAtLast(path, "");
    SplitAtLast(path, ".");
    var parts := Split(path, '/');
    assert path + "/" + "" == path + "/";
    assert (parts + [""])[..|parts|] == parts && (parts + ["."])[..|parts|] == parts;
  }

  // ---- sanitising a file name ----

  function SanitizeFilename(filename: string): Result<string, NameError> {
    var trimmed := Replace(Strip(PathName(filename), IsSpace), ' ', '_');
    var safe := CollapseRuns(trimmed, IsUnsafe, false);
    var name := Strip(CollapseRuns(safe, IsUnderscore, false), IsUnderscore);
    if IsDots(name) then Failure(UnsafeFilename) else Success(name)
  }

  /** What sanitising is for: the runs of kept characters of the last path component, joined by single '_'. */
  function CleanName(filename: string): string {
    Join(Words(PathName(filename), IsKept), '_')
  }

  predicate IsDropped(c: char) {
    !IsKept(c)
  }

  /** Replacing unsafe runs and then underscore runs is one pass over the runs of either. */
  lemma {:induction false} TwoPassesAreOne(s: string, inUnsafe: bool, inRun: bool)
    requires inUnsafe ==> inRun
    ensures CollapseRuns(CollapseRuns(s, IsUnsafe, inUnsafe), IsUnderscore, inRun) == CollapseRuns(s, IsDropped, inRun)
  {
    if s != "" {
      var unsafe := IsUnsafe(s[0]);
      var rest := CollapseRuns(s[1..], IsUnsafe, unsafe);
      TwoPassesAreOne(s[1..], unsafe, IsDropped(s[0]));
      if unsafe && !inUnsafe {
        assert CollapseRuns(s, IsUnsafe, inUnsafe)[1..] == rest;
      } else if unsafe {
        assert CollapseRuns(s, IsUnsafe, inUnsafe) == rest;
      } else {
        assert CollapseRuns(s, IsUnsafe, inUnsafe)[1..] == rest;
      }
    }
  }

  lemma {:induction false} SpacesAreDropped(s: string, inRun: bool)
    ensures CollapseRuns(Replace(s, ' ', '_'), IsDropped, inRun) == CollapseRuns(s, IsDropped, inRun)
  {
    if s != "" {
      SpacesAreDropped(s[1..], IsDropped(s[0]));
      assert Replace(s, ' ', '_')[1..] == Replace(s[1..], ' ', '_');
    }
  }

  lemma LeadingRunIsTrimmed(s: string)
    ensures TrimLeft(CollapseRuns(s, IsDropped, false), IsUnderscore) == CollapseRuns(s, IsDropped, true)
  {
    if s != "" && IsDropped(s[0]) {
      var rest := CollapseRuns(s[1..], IsDropped, true);
      assert CollapseRuns(s, IsDropped, false)[1..] == rest;
      assert rest != "" ==> !IsUnderscore(rest[0]) by { StartsKept(s[1..]); }
    }
  }

  lemma {:induction false} StartsKept(s: string)
    ensures var r := CollapseRuns(s, IsDropped, true); r != "" ==> IsKept(r[0])
  {
    if s != "" && IsDropped(s[0]) {
      StartsKept(s[1..]);
    }
  }

  lemma DroppedStep(s: string)
    requires s != "" && IsDropped(s[0])
    ensures CollapseRuns(s, IsDropped, true) == CollapseRuns(s[1..], IsDropped, true)
    ensures CollapseRuns(s, IsDropped, false) == ['_'] + CollapseRuns(s[1..], IsDropped, true)
    ensures Words(s, IsKept) == Words(s[1..], IsKept)
  {
    assert "" + CollapseRuns(s[1..], IsDropped, true) == CollapseRuns(s[1..], IsDropped, true);
  }

  lemma {:induction false} TrailingRunIsTrimmed(s: string)
    ensures TrimRight(CollapseRuns(s, IsDropped, true), IsUnderscore) == Join(Words(s, IsKept), '_')
  {
    if s != "" {
      TrailingRunIsTrimmed(s[1..]);
      if IsDropped(s[0]) {
        DroppedStep(s);
      } else if s[1..] == "" || IsKept(s[1]) {
        TrimInsideWord(s);
      } else {
        TrimAfterWord(s);
      }
    }
  }

  lemma TrimInsideWord(s: string)
    requires s != "" && IsKept(s[0]) && (s[1..] == "" || IsKept(s[1]))
    requires TrimRight(CollapseRuns(s[1..], IsDropped, true), IsUnderscore) == Join(Words(s[1..], IsKept), '_')
    ensures TrimRight(CollapseRuns(s, IsDropped, true), IsUnderscore) == Join(Words(s, IsKept), '_')
  {
    var t := s[1..];
    var words := Words(t, IsKept);
    TrimRightStep(s[0], CollapseRuns(t, IsDropped, true), IsUnderscore);
    if t != "" {
      JoinGrows(s[0], words);
    }
  }

  lemma {:induction false} JoinGrows(c: char, words: seq<string>)
    requires words != []
    ensures Join([[c] + words[0]] + words[1..], '_') == [c] + Join(words, '_')
  {
    if |words| > 1 {
      JoinStep([c] + words[0], words[1..], '_');
      assert [c] + words[0] + ['_'] + Join(words[1..], '_') == [c] + (words[0] + ['_'] + Join(words[1..], '_'));
    }
  }

  lemma TrimAfterWord(s: string)
    requires |s| > 1 && IsKept(s[0]) && IsDropped(s[1])
    requires TrimRight(CollapseRuns(s[1..], IsDropped, true), IsUnderscore) == Join(Words(s[1..], IsKept), '_')
    ensures TrimRight(CollapseRuns(s, IsDropped, true), IsUnderscore) == Join(Words(s, IsKept), '_')
  {
    var t := s[1..];
    var words := Words(t, IsKept);
    DroppedStep(t);
    TrimRightStep('_', CollapseRuns(t, IsDropped, true), IsUnderscore);
    TrimRightStep(s[0], CollapseRuns(t, IsDropped, false), IsUnderscore);
    WordsAreMadeOf(t, IsKept);
    JoinIsEmpty(words);
    assert Words(s, IsKept) == [[s[0]]] + words;
    if words != [] {
      JoinStep([s[0]], words, '_');
    }
  }

  lemma JoinIsEmpty(words: seq<string>)
    requires forall w :: w in words ==> w != ""
    ensures Join(words, '_') == "" <==> words == []
  {
    if words != [] {
      assert words[0] in words;
    }
  }

  /** The four passes of sanitising come to splitting into words and joining them again. */
  lemma SanitizeJoinsTheWords(filename: string)
    ensures SanitizeFilename(filename) ==
            if IsDots(CleanName(filename)) then Failure(UnsafeFilename) else Success(CleanName(filename))
  {
    var stripped := Strip(PathName(filename), IsSpace);
    TwoPassesAreOne(Replace(stripped, ' ', '_'), false, false);
    SpacesAreDropped(stripped, false);
    LeadingRunIsTrimmed(stripped);
    TrailingRunIsTrimmed(stripped);
    StripKeepsWords(PathName(filename), IsSpace, IsKept);
  }

  lemma {:induction false} JoinIsSafe(words: seq<string>)
    requires forall w :: w in words ==> w != "" && AllChars(w, IsKept)
    ensures AllChars(Join(words, '_'), IsSafe)
  {
    if words != [] {
      assert words[0] in words;
      if |words| > 1 {
        forall w | w in words[1..] ensures w != "" && AllChars(w, IsKept) {
          assert w in words;
        }
        JoinIsSafe(words[1..]);
      }
    }
  }

  lemma SafeHasNoSlash(name: string)
    requires AllChars(name, IsSafe)
    ensures '/' !in name
  {
    assert forall i :: 0 <= i < |name| ==> IsSafe(name[i]);
  }

  lemma SanitizedIsSafe(filename: string)
    requires SanitizeFilename(filename).Success?
    ensures SafeName(SanitizeFilename(filename).value)
  {
    SanitizeJoinsTheWords(filename);
    WordsAreMadeOf(PathName(filename), IsKept);
    JoinIsSafe(Words(PathName(filename), IsKept));
  }

  /** The names sanitising produces are exactly the names it leaves alone. */
  lemma SanitizedNamesAreFixed(name: string)
    ensures SanitizeFilename(name) == Success(name) <==> exists f :: SanitizeFilename(f) == Success(name)
  {
    forall f | SanitizeFilename(f) == Success(name) ensures SanitizeFilename(name) == Success(name) {
      SanitizeAgain(f);
    }
  }

  lemma SanitizeAgain(filename: string)
    requires SanitizeFilename(filename).Success?
    ensures SanitizeFilename(SanitizeFilename(filename).value) == SanitizeFilename(filename)
  {
    var name, words := SanitizeFilename(filename).value, Words(PathName(filename), IsKept);
    SanitizedIsSafe(filename);
    SafeHasNoSlash(name);
    PlainNameIsItsOwnPathName(name);
    SanitizeJoinsTheWords(filename);
    WordsAreMadeOf(PathName(filename), IsKept);
    WordsOfJoin(words, IsKept, '_');
    SanitizeJoinsTheWords(name);
  }

  // ---- object keys ----

  function SafeSegment(value: string, field: string): Result<string, NameError> {
    var cleaned := CollapseRuns(Strip(value, IsSpace), IsUnsafe, false);
    if IsDots(cleaned) then Failure(UnsafeSegment(field)) else Success(cleaned)
  }

  function ArtifactKey(workspaceId: string, artifactId: string, filename: Option<string>): Result<string, NameError> {
    var workspace := SafeSegment(workspaceId, "workspace_id");
    if workspace.Failure? then workspace
    else
      var artifact := SafeSegment(artifactId, "artifact_id");
      if artifact.Failure? then artifact
      else
        var base := "workspaces/" + workspace.value + "/artifacts/" + artifact.value;
        if filename.None? || filename.value == "" then Success(base)
        else
          var name := SafeSegment(PathName(filename.value), "filename");
          if name.Failure? then name else Success(base + "/" + name.value)
  }

  /** The segments of the key of valid arguments. */
  function KeySegments(workspaceId: string, artifactId: string, filename: Option<string>): seq<string>
    requires ArtifactKey(workspaceId, artifactId, filename).Success?
  {
    ["workspaces", SafeSegment(workspaceId, "workspace_id").value,
     "artifacts", SafeSegment(artifactId, "artifact_id").value]
    + if filename.None? || filename.value == "" then [] else [SafeSegment(PathName(filename.value), "filename").value]
  }

  lemma {:induction false} CollapsedIsSafe(s: string, inRun: bool)
    ensures AllChars(CollapseRuns(s, IsUnsafe, inRun), IsSafe)
  {
    if s != "" {
      CollapsedIsSafe(s[1..], IsUnsafe(s[0]));
    }
  }

  lemma SegmentIsSafe(value: string, field: string)
    requires SafeSegment(value, field).Success?
    ensures SafeName(SafeSegment(value, field).value)
    ensures '/' !in SafeSegment(value, field).value
  {
    CollapsedIsSafe(Strip(value, IsSpace), false);
    SafeHasNoSlash(SafeSegment(value, field).value);
  }

  /** A segment is left alone exactly when it is already safe. */
  lemma SafeNamesAreKept(value: string, field: string)
    ensures SafeSegment(value, field) == Success(value) <==> SafeName(value)
  {
    if SafeName(value) {
      assert forall i :: 0 <= i < |value| ==> IsSafe(value[i]);
      StripKeeps(value, IsSpace);
      CollapseKeeps(value, IsUnsafe);
    }
    if SafeSegment(value, field) == Success(value) {
      SegmentIsSafe(value, field);
    }
  }

  lemma LabelsAreSafe()
    ensures SafeName("workspaces") && SafeName("artifacts")
  {
  }

  lemma SegmentsAreSafe(workspaceId: string, artifactId: string, filename: Option<string>)
    requires ArtifactKey(workspaceId, artifactId, filename).Success?
    ensures var segments := KeySegments(workspaceId, artifactId, filename);
            forall i :: 0 <= i < |segments| ==> SafeName(segments[i])
  {
    LabelsAreSafe();
    SegmentIsSafe(workspaceId, "workspace_id");
    SegmentIsSafe(artifactId, "artifact_id");
    if filename.Some? && filename.value != "" {
      SegmentIsSafe(PathName(filename.value), "filename");
    }
  }

  /** Surrounding white space is dropped from a segment. */
  lemma SegmentIsStripped(left: string, value: string, right: string, field: string)
    requires forall i :: 0 <= i < |left| ==> IsSpace(left[i])
    requires forall i :: 0 <= i < |right| ==> IsSpace(right[i])
    ensures SafeSegment(left + value + right, field) == SafeSegment(value, field)
  {
    StripOuter(left, value, right, IsSpace);
  }

  /** Between the ends every run of unsafe characters becomes one underscore. */
  lemma SegmentOfRuns(before: string, run: string, rest: string, field: string)
    requires before != "" && AllChars(before, IsSafe)
    requires run != "" && AllChars(run, IsUnsafe)
    requires rest != "" && AllChars(rest, IsSafe)
    ensures SafeSegment(before + run + rest, field) == Success(before + "_" + rest)
  {
    var whole := before + run + rest;
    assert IsSafe(before[0]) && IsSafe(rest[|rest| - 1]) && IsSafe(rest[0]);
    assert whole[0] == before[0] && whole[|whole| - 1] == rest[|rest| - 1];
    StripKeepsInside(whole, IsSpace);
    RunBecomesUnderscore(before, run, rest, IsUnsafe);
    CollapseKeeps(rest, IsUnsafe);
    assert |before + "_" + rest| > 2;
  }

  lemma {:induction false} DotsAreNotMade(s: string)
    requires forall c :: c in CollapseRuns(s, IsUnsafe, false) ==> c == '.'
    ensures CollapseRuns(s, IsUnsafe, false) == s
  {
    if s != "" {
      var whole, rest := CollapseRuns(s, IsUnsafe, false), CollapseRuns(s[1..], IsUnsafe, false);
      assert whole[0] in whole;
      assert whole == [s[0]] + rest;
      forall c | c in rest ensures c == '.' {
        assert c in whole;
      }
      DotsAreNotMade(s[1..]);
    }
  }

  /** Collapsing neither makes nor hides a name of dots. */
  lemma DotsCollapse(s: string)
    ensures CollapseRuns(s, IsUnsafe, false) in {"", ".", ".."} <==> s in {"", ".", ".."}
  {
    if CollapseRuns(s, IsUnsafe, false) in {"", ".", ".."} {
      DotsAreNotMade(s);
    }
    if s in {"", ".", ".."} {
      CollapseKeeps(s, IsUnsafe);
    }
  }

  /** A segment is refused exactly when nothing but at most two dots is left of it without white space. */
  lemma SegmentFailsExactly(value: string, field: string)
    ensures SafeSegment(value, field) == Failure(UnsafeSegment(field)) <==> Strip(value, IsSpace) in {"", ".", ".."}
    ensures SafeSegment(value, field).Failure? ==> SafeSegment(value, field).error == UnsafeSegment(field)
  {
    DotsCollapse(Strip(value, IsSpace));
  }

  /** A key is refused for its first argument without a usable segment, under that argument's name. */
  lemma KeyErrorsExactly(workspaceId: string, artifactId: string, filename: Option<string>)
    ensures var key := ArtifactKey(workspaceId, artifactId, filename);
            var dots := {"", ".", ".."};
            var badWorkspace := Strip(workspaceId, IsSpace) in dots;
            var badArtifact := Strip(artifactId, IsSpace) in dots;
            var badName := filename.Some? && filename.value != "" && Strip(PathName(filename.value), IsSpace) in dots;
            && (key == Failure(UnsafeSegment("workspace_id")) <==> badWorkspace)
            && (key == Failure(UnsafeSegment("artifact_id")) <==> !badWorkspace && badArtifact)
            && (key == Failure(UnsafeSegment("filename")) <==> !badWorkspace && !badArtifact && badName)
            && (key.Success? <==> !badWorkspace && !badArtifact && !badName)
  {
    SegmentFailsExactly(workspaceId, "workspace_id");
    SegmentFailsExactly(artifactId, "artifact_id");
    if filename.Some? {
      SegmentFailsExactly(PathName(filename.value), "filename");
    }
  }

  /** A UUID in its text form is a safe name, so it stands in a key as it is. */
  lemma UuidsAreKept(id: string, field: string)
    requires |id| == 36
    requires forall i :: 0 <= i < |id| ==> '0' <= id[i] <= '9' || 'a' <= id[i] <= 'f' || id[i] == '-'
    ensures SafeSegment(id, field) == Success(id)
  {
    assert forall i :: 0 <= i < |id| ==> IsSafe(id[i]);
    SafeNamesAreKept(id, field);
  }

  /** Every key splits on '/' into the two fixed labels and safe segments, none of them empty, "." or "..". */
  lemma KeySplitsIntoSafeSegments(workspaceId: string, artifactId: string, filename: Option<string>)
    requires ArtifactKey(workspaceId, artifactId, filename).Success?
    ensures var segments := KeySegments(workspaceId, artifactId, filename);
            && Split(ArtifactKey(workspaceId, artifactId, filename).value, '/') == segments
            && forall i :: 0 <= i < |segments| ==> SafeName(segments[i])
  {
    var segments := KeySegments(workspaceId, artifactId, filename);
    SegmentsAreSafe(workspaceId, artifactId, filename);
    KeyIsJoin(workspaceId, artifactId, filename);
    SplitSafe(segments);
  }

  lemma SplitSafe(segments: seq<string>)
    requires segments != [] && forall i :: 0 <= i < |segments| ==> SafeName(segments[i])
    ensures Split(Join(segments, '/'), '/') == segments
  {
    forall part | part in segments ensures '/' !in part {
      SafeHasNoSlash(part);
    }
    SplitJoin(segments, '/');
  }

  lemma KeyIsJoin(workspaceId: string, artifactId: string, filename: Option<string>)
    requires ArtifactKey(workspaceId, artifactId, filename).Success?
    ensures ArtifactKey(workspaceId, artifactId, filename).value ==
            Join(KeySegments(workspaceId, artifactId, filename), '/')
  {
    var w, a := SafeSegment(workspaceId, "workspace_id").value, SafeSegment(artifactId, "artifact_id").value;
    if filename.None? || filename.value == "" {
      JoinFrom(w, [a]);
      assert KeySegments(workspaceId, artifactId, filename) == ["workspaces", w, "artifacts"] + [a];
    } else {
      var name := SafeSegment(PathName(filename.value), "filename").value;
      JoinFrom(w, [a, name]);
      JoinStep(a, [name], '/');
      assert Join([a] + [name], '/') == a + "/" + name && [a] + [name] == [a, name];
      assert KeySegments(workspaceId, artifactId, filename) == ["workspaces", w, "artifacts"] + [a, name];
    }
  }

  lemma JoinFrom(workspace: string, rest: seq<string>)
    requires rest != []
    ensures Join(["workspaces", workspace, "artifacts"] + rest, '/') ==
            "workspaces/" + workspace + "/artifacts/" + Join(rest, '/')
  {
    JoinStep("artifacts", rest, '/');
    JoinStep(workspace, ["artifacts"] + rest, '/');
    JoinStep("workspaces", [workspace] + (["artifacts"] + rest), '/');
    assert ["workspaces"] + ([workspace] + (["artifacts"] + rest)) == ["workspaces", workspace, "artifacts"] + rest;
    assert "workspaces" + "/" == "workspaces/" && "/" + "artifacts" + "/" == "/artifacts/";
    var tail := Join(rest, '/');
    assert "workspaces" + "/" + (workspace + "/" + ("artifacts" + "/" + tail)) ==
           "workspaces/" + workspace + "/artifacts/" + tail;
  }

  /** Two keys are equal exactly when their segments are: no id or name can reach into another field. */
  lemma KeysAgreeOnlyOnSegments(
    w1: string, a1: string, f1: Option<string>, w2: string, a2: string, f2: Option<string>)
    requires ArtifactKey(w1, a1, f1).Success? && ArtifactKey(w2, a2, f2).Success?
    ensures ArtifactKey(w1, a1, f1) == ArtifactKey(w2, a2, f2) <==> KeySegments(w1, a1, f1) == KeySegments(w2, a2, f2)
  {
    KeySplitsIntoSafeSegments(w1, a1, f1);
    KeySplitsIntoSafeSegments(w2, a2, f2);
    KeyIsJoin(w1, a1, f1);
    KeyIsJoin(w2, a2, f2);
  }

  /** A key lies under a workspace's prefix exactly when it was made for an id that cleans to that workspace. */
  lemma KeysStayInTheirWorkspace(
    workspaceId: string, artifactId: string, filename: Option<string>, other: string)
    requires ArtifactKey(workspaceId, artifactId, filename).Success? && SafeName(other)
    ensures "workspaces/" + other + "/" <= ArtifactKey(workspaceId, artifactId, filename).value <==>
            SafeSegment(workspaceId, "workspace_id") == Success(other)
  {
    var key := ArtifactKey(workspaceId, artifactId, filename).value;
    var prefix := "workspaces/" + other + "/";
    KeySplitsIntoSafeSegments(workspaceId, artifactId, filename);
    if prefix <= key {
      var rest := key[|prefix|..];
      SafeHasNoSlash(other);
      assert key == "workspaces" + ['/'] + (other + ['/'] + rest);
      SplitAtSeparator("workspaces", other + ['/'] + rest, '/');
      SplitAtSeparator(other, rest, '/');
      assert Split(key, '/')[1] == other;
    }
    if SafeSegment(workspaceId, "workspace_id") == Success(other) {
      KeyStartsWithItsWorkspace(workspaceId, artifactId, filename);
    }
  }

  lemma KeyStartsWithItsWorkspace(workspaceId: string, artifactId: string, filename: Option<string>)
    requires ArtifactKey(workspaceId, artifactId, filename).Success?
    ensures "workspaces/" + SafeSegment(workspaceId, "workspace_id").value + "/"
            <= ArtifactKey(workspaceId, artifactId, filename).value
  {
    var start := "workspaces/" + SafeSegment(workspaceId, "workspace_id").value;
    var rest := "artifacts/" + SafeSegment(artifactId, "artifact_id").value;
    assert "/artifacts/" == "/" + "artifacts/";
    assert start + "/artifacts/" + SafeSegment(artifactId, "artifact_id").value == start + "/" + rest;
  }

  /** Two different ids that are safe names already, such as UUIDs, never share a key. */
  lemma SafeIdsNeverShareKeys(
    w1: string, w2: string, a1: string, f1: Option<string>, a2: string, f2: Option<string>)
    requires SafeName(w1) && SafeName(w2) && w1 != w2
    requires ArtifactKey(w1, a1, f1).Success? && ArtifactKey(w2, a2, f2).Success?
    ensures ArtifactKey(w1, a1, f1) != ArtifactKey(w2, a2, f2)
  {
    SafeNamesAreKept(w1, "workspace_id");
    SafeNamesAreKept(w2, "workspace_id");
    KeysAgreeOnlyOnSegments(w1, a1, f1, w2, a2, f2);
    assert KeySegments(w1, a1, f1)[1] == w1 && KeySegments(w2, a2, f2)[1] == w2;
  }

  /** An id that is not a safe name shares all its keys with the safe name it cleans to. */
  lemma UnsafeIdsCanShareKeys(artifactId: string, filename: Option<string>)
    requires SafeSegment(artifactId, "artifact_id").Success?
    requires filename.Some? && filename.value != "" ==> SafeSegment(PathName(filename.value), "filename").Success?
    ensures var key := ArtifactKey("a b", artifactId, filename);
            key.Success? && key == ArtifactKey("a_b", artifactId, filename)
  {
    SafeNamesAreKept("a_b", "workspace_id");
    SpaceBecomesUnderscore();
  }

  lemma SpaceBecomesUnderscore()
    ensures SafeSegment("a b", "workspace_id") == Success("a_b")
  {
    var b, sb, asb := "b", " b", "a b";
    assert b[1..] == "" && sb[1..] == b && asb[1..] == sb;
    TrimRightStep('b', "", IsSpace);
    TrimRightStep(' ', b, IsSpace);
    TrimRightStep('a', sb, IsSpace);
    assert ['b'] + "" == b && [' '] + b == sb && ['a'] + sb == asb;
    assert Strip(asb, IsSpace) == asb;
    assert CollapseRuns("", IsUnsafe, false) == "";
    assert CollapseRuns(b, IsUnsafe, true) == ['b'] + CollapseRuns("", IsUnsafe, false);
    assert CollapseRuns(sb, IsUnsafe, false) == "_" + CollapseRuns(b, IsUnsafe, true);
    assert CollapseRuns(asb, IsUnsafe, false) == ['a'] + CollapseRuns(sb, IsUnsafe, false);
    assert CollapseRuns(asb, IsUnsafe, false) == "a_b";
  }

  /** What sanitising lets through, the key carries unchanged as its last segment. */
  lemma SanitizedNameEndsTheKey(filename: string, workspaceId: string, artifactId: string)
    requires SanitizeFilename(filename).Success?
    requires SafeSegment(workspaceId, "workspace_id").Success? && SafeSegment(artifactId, "artifact_id").Success?
    ensures var name := SanitizeFilename(filename).value;
            var key := ArtifactKey(workspaceId, artifactId, Some(name));
            && key.Success?
            && Split(key.value, '/') == ["workspaces", SafeSegment(workspaceId, "workspace_id").value,
                                         "artifacts", SafeSegment(artifactId, "artifact_id").value, name]
            && (exists dir :: key.value == dir + "/" + name)
  {
    var name := SanitizeFilename(filename).value;
    SanitizedIsSafe(filename);
    SafeHasNoSlash(name);
    PlainNameIsItsOwnPathName(name);
    SafeNamesAreKept(name, "filename");
    KeySplitsIntoSafeSegments(workspaceId, artifactId, Some(name));
    var dir := ArtifactKey(workspaceId, artifactId, None).value;
    assert ArtifactKey(workspaceId, artifactId, Some(name)).value == dir + "/" + name;
  }

  // ---- file types ----

  /** `s.rfind('.')` */
  function LastDot(s: string): (i: int)
    ensures -1 <= i < |s|
  {
    if s == "" then -1 else if s[|s| - 1] == '.' then |s| - 1 else LastDot(s[..|s| - 1])
  }

  /** `Path(path).suffix` */
  function PathSuffix(path: string): string {
    var name := PathName(path);
    var i := LastDot(name);
    if 0 < i < |name| - 1 then name[i..] else ""
  }

  function LowerChar(c: char): char {
    if 'A' <= c <= 'Z' then c - 'A' + 'a' else c
  }

  lemma LowerCharsAre(c: char)
    ensures LowerChar(c) as int == if 65 <= c as int <= 90 then c as int + 32 else c as int
  {
  }

  /** `s.lower()` for the ASCII strings it is applied to here. */
  function Lower(s: string): (r: string)
    ensures |r| == |s| && forall i :: 0 <= i < |s| ==> r[i] == LowerChar(s[i])
  {
    seq(|s|, i requires 0 <= i < |s| => LowerChar(s[i]))
  }

  const ALLOWED_EXTENSIONS: set<string> := {".csv", ".eml", ".pdf", ".txt"}

  function ValidateUploadFilename(filename: Option<string>): Result<string, NameError> {
    if filename.None? || filename.value == "" then Failure(NoFilename)
    else
      var name := SanitizeFilename(filename.value);
      if name.Failure? then name
      else
        var suffix := Lower(PathSuffix(name.value));
        if suffix in ALLOWED_EXTENSIONS then name else Failure(UnsupportedType(suffix))
  }

  /** The type recorded with an upload: `name.rsplit(".", 1)[-1].lower()`. */
  function RecordedType(name: string): string {
    Lower(name[LastDot(name) + 1..])
  }

  datatype Parser = CsvParser | EmailParser | PdfParser | TextParser

  /** The parser of an existing file. */
  function Dispatch(path: string): Option<Parser> {
    var suffix := Lower(PathSuffix(path));
    if suffix == ".csv" then Some(CsvParser)
    else if suffix == ".eml" then Some(EmailParser)
    else if suffix == ".pdf" then Some(PdfParser)
    else if suffix == ".txt" then Some(TextParser)
    else None
  }

  /** The file type the parser writes into its document. */
  function ParsedType(parser: Parser): string {
    match parser
    case CsvParser => "csv"
    case EmailParser => "eml"
    case PdfParser => "pdf"
    case TextParser => "txt"
  }

  lemma AllowedSuffixIsTheRecordedType(name: string)
    requires PathName(name) == name && Lower(PathSuffix(name)) in ALLOWED_EXTENSIONS
    ensures Lower(PathSuffix(name)) == "." + RecordedType(name)
  {
    var i := LastDot(name);
    LastDotIsDot(name);
    assert name[i..] == "." + name[i + 1..];
    assert LowerChar('.') == '.';
    assert Lower("." + name[i + 1..]) == "." + Lower(name[i + 1..]);
  }

  lemma {:induction false} LastDotIsDot(s: string)
    ensures LastDot(s) >= 0 ==> s[LastDot(s)] == '.'
    ensures forall k :: LastDot(s) < k < |s| ==> s[k] != '.'
  {
    if s != "" && s[|s| - 1] != '.' {
      LastDotIsDot(s[..|s| - 1]);
    }
  }

  predicate HasAllowedEnding(name: string) {
    |name| > 4 && Lower(name[|name| - 4..]) in ALLOWED_EXTENSIONS
  }

  /** What makes an upload acceptable, in terms of the cleaned name: something before one of the four endings. */
  lemma AcceptedExactlyByEnding(filename: string, name: string)
    ensures ValidateUploadFilename(Some(filename)) == Success(name) <==>
            && name == CleanName(filename) && |name| > 4
            && Lower(name[|name| - 4..]) in {".csv", ".eml", ".pdf", ".txt"}
  {
    SanitizeJoinsTheWords(filename);
    EmptyIsClean();
    if SanitizeFilename(filename).Success? {
      SanitizedIsSafe(filename);
      SafeEnding(CleanName(filename));
    } else {
      assert !HasAllowedEnding(CleanName(filename));
    }
  }

  /** Which error a refused upload gets. */
  lemma UploadErrorsExactly(filename: string)
    ensures ValidateUploadFilename(None) == Failure(NoFilename)
    ensures var r, name := ValidateUploadFilename(Some(filename)), CleanName(filename);
            && (r == Failure(NoFilename) <==> filename == "")
            && (r == Failure(UnsafeFilename) <==> filename != "" && name in {"", ".", ".."})
            && (filename != "" && name !in {"", ".", ".."} ==>
                  r == Success(name) || (r.Failure? && r.error.UnsupportedType?))
  {
    SanitizeJoinsTheWords(filename);
  }

  lemma SuffixFollowsLastDot(stem: string, ext: string)
    requires '.' !in ext && stem != "" && ext != ""
    requires PathName(stem + "." + ext) == stem + "." + ext
    ensures PathSuffix(stem + "." + ext) == "." + ext
  {
    var name := stem + "." + ext;
    LastDotIsDot(name);
    assert name[|stem|] == '.' && name[|stem|..] == "." + ext;
    assert forall k :: |stem| < k < |name| ==> name[k] == ext[k - |stem| - 1];
  }

  /** An unsupported name is refused with what follows its last dot, in lower case. */
  lemma UnsupportedEnding(filename: string, stem: string, ext: string)
    requires CleanName(filename) == stem + "." + ext && stem != "" && ext != "" && '.' !in ext
    requires Lower("." + ext) !in {".csv", ".eml", ".pdf", ".txt"}
    ensures ValidateUploadFilename(Some(filename)) == Failure(UnsupportedType(Lower("." + ext)))
  {
    EmptyIsClean();
    SanitizeJoinsTheWords(filename);
    DottedIsNotDots(stem, ext);
    CleanIsItsOwnPathName(filename);
    SuffixFollowsLastDot(stem, ext);
  }

  lemma DottedIsNotDots(stem: string, ext: string)
    requires stem != "" && ext != "" && '.' !in ext
    ensures !IsDots(stem + "." + ext)
  {
  }

  /** A name without an ending is refused with an empty one. */
  lemma UnsupportedWithoutEnding(filename: string)
    requires var name := CleanName(filename); name !in {"", ".", ".."}
    requires var name := CleanName(filename); name[|name| - 1] == '.' || '.' !in name[1..]
    ensures ValidateUploadFilename(Some(filename)) == Failure(UnsupportedType(""))
  {
    var name := CleanName(filename);
    EmptyIsClean();
    SanitizeJoinsTheWords(filename);
    CleanIsItsOwnPathName(filename);
    LastDotIsDot(name);
    assert forall k :: 0 < k < |name| ==> name[k] == name[1..][k - 1];
  }

  lemma CleanIsItsOwnPathName(filename: string)
    requires SanitizeFilename(filename).Success?
    ensures SafeName(CleanName(filename)) && PathName(CleanName(filename)) == CleanName(filename)
  {
    SanitizeJoinsTheWords(filename);
    SanitizedIsSafe(filename);
    SafeHasNoSlash(CleanName(filename));
    PlainNameIsItsOwnPathName(CleanName(filename));
  }

  lemma SafeEnding(name: string)
    requires SafeName(name)
    ensures Lower(PathSuffix(name)) in ALLOWED_EXTENSIONS <==> HasAllowedEnding(name)
  {
    SafeHasNoSlash(name);
    PlainNameIsItsOwnPathName(name);
    SuffixOfFour(name);
  }

  lemma EmptyIsClean()
    ensures CleanName("") == ""
  {
    PlainNameIsItsOwnPathName("");
  }

  lemma SuffixOfFour(name: string)
    requires PathName(name) == name
    ensures Lower(PathSuffix(name)) in ALLOWED_EXTENSIONS <==> HasAllowedEnding(name)
  {
    var i := LastDot(name);
    LastDotIsDot(name);
    if Lower(PathSuffix(name)) in ALLOWED_EXTENSIONS {
      assert |PathSuffix(name)| == 4;
    }
    if |name| > 4 && Lower(name[|name| - 4..]) in ALLOWED_EXTENSIONS {
      var ending := name[|name| - 4..];
      OneDot(ending);
      forall m | |name| - 4 < m < |name| ensures name[m] != '.' {
        assert name[m] == ending[m - (|name| - 4)];
      }
      assert name[|name| - 4] == ending[0];
    }
  }

  lemma OneDot(ending: string)
    requires Lower(ending) in ALLOWED_EXTENSIONS
    ensures |ending| == 4 && ending[0] == '.' && forall k :: 0 < k < 4 ==> ending[k] != '.'
  {
    assert |Lower(ending)| == 4;
    assert LowerChar(ending[0]) == '.';
    forall k | 0 < k < 4 ensures ending[k] != '.' {
      assert Lower(ending)[k] != '.';
    }
  }

  /**
   * The whole chain: an accepted upload stored under its key in any directory is dispatched to a parser,
   * and the type that parser reports is the type recorded for the upload.
   */
  lemma AcceptedUploadReachesItsParser(
    filename: Option<string>, workspaceId: string, fileId: string, root: string)
    requires ValidateUploadFilename(filename).Success?
    requires SafeSegment(workspaceId, "workspace_id").Success? && SafeSegment(fileId, "artifact_id").Success?
    ensures var name := ValidateUploadFilename(filename).value;
            var key := ArtifactKey(workspaceId, fileId, Some(name));
            && key.Success?
            && Dispatch(root + "/" + key.value).Some?
            && ParsedType(Dispatch(root + "/" + key.value).value) == RecordedType(name)
  {
    var name := ValidateUploadFilename(filename).value;
    SanitizedNameEndsTheKey(filename.value, workspaceId, fileId);
    SanitizedIsSafe(filename.value);
    var key := ArtifactKey(workspaceId, fileId, Some(name)).value;
    var dir :| key == dir + "/" + name;
    StoredPathIsDispatched(root, dir, name);
  }

  lemma StoredPathIsDispatched(root: string, dir: string, name: string)
    requires SafeName(name) && Lower(PathSuffix(name)) in ALLOWED_EXTENSIONS
    ensures var path := root + "/" + (dir + "/" + name);
            Dispatch(path).Some? && ParsedType(Dispatch(path).value) == RecordedType(name)
  {
    var path := root + "/" + (dir + "/" + name);
    SafeHasNoSlash(name);
    PlainNameIsItsOwnPathName(name);
    assert path == (root + "/" + dir) + "/" + name;
    PathNameOfFile(root + "/" + dir, name);
    AllowedSuffixIsTheRecordedType(name);
    TypeOfSuffix(path, RecordedType(name));
  }

  lemma TypeOfSuffix(path: string, recorded: string)
    requires Lower(PathSuffix(path)) in ALLOWED_EXTENSIONS && Lower(PathSuffix(path)) == "." + recorded
    ensures Dispatch(path).Some? && ParsedType(Dispatch(path).value) == recorded
  {
    var suffix := Lower(PathSuffix(path));
    assert recorded == suffix[1..];
    assert ".csv"[1..] == "csv" && ".eml"[1..] == "eml" && ".pdf"[1..] == "pdf" && ".txt"[1..] == "txt";
  }

  lemma SuffixIsEnding(name: string)
    requires PathName(name) == name && |PathSuffix(name)| == 4
    ensures |name| > 4 && PathSuffix(name) == name[|name| - 4..]
  {
  }

  /** A stored file goes to the parser of its ending, in any case, and to none otherwise. */
  lemma DispatchedByEnding(dir: string, name: string)
    requires SafeName(name)
    ensures var ending := if |name| > 4 then Lower(name[|name| - 4..]) else "";
            && (Dispatch(dir + "/" + name) == Some(CsvParser) <==> ending == ".csv")
            && (Dispatch(dir + "/" + name) == Some(EmailParser) <==> ending == ".eml")
            && (Dispatch(dir + "/" + name) == Some(PdfParser) <==> ending == ".pdf")
            && (Dispatch(dir + "/" + name) == Some(TextParser) <==> ending == ".txt")
  {
    SafeHasNoSlash(name);
    PlainNameIsItsOwnPathName(name);
    PathNameOfFile(dir, name);
    SuffixOfFour(name);
    if Lower(PathSuffix(name)) in ALLOWED_EXTENSIONS {
      SuffixIsEnding(name);
    }
    if HasAllowedEnding(name) {
      SuffixIsEnding(name);
    }
  }

  // ---- reading an upload ----

  function Concat(chunks: seq<seq<bv8>>): seq<bv8> {
    if chunks == [] then [] else Concat(chunks[..|chunks| - 1]) + chunks[|chunks| - 1]
  }

  function FirstReads(read: nat -> seq<bv8>, n: nat): seq<seq<bv8>> {
    seq(n, i requires 0 <= i < n => read(i))
  }

  /** The bytes of the reads follow each other in order, and there are no others. */
  lemma OneMoreRead(read: nat -> seq<bv8>, n: nat)
    ensures Concat(FirstReads(read, 0)) == []
    ensures FirstReads(read, n + 1) == FirstReads(read, n) + [read(n)]
    ensures Concat(FirstReads(read, n + 1)) == Concat(FirstReads(read, n)) + read(n)
  {
    assert FirstReads(read, n + 1)[..n] == FirstReads(read, n);
  }

  ghost predicate NoneEmpty(read: nat -> seq<bv8>, n: nat) {
    forall i: nat :: i < n ==> read(i) != []
  }

  ghost predicate EndsAt(read: nat -> seq<bv8>, n: nat) {
    read(n) == [] && NoneEmpty(read, n)
  }

  /**
   * `read(i)` is what the i-th read returns. The upload is everything before the first empty read, and it is
   * accepted exactly when it keeps to the limit; reading stops by itself even if the stream never ends.
   */
  method ReadUploadBytes(read: nat -> seq<bv8>, maxSize: int) returns (r: Result<seq<bv8>, NameError>, count: nat)
    ensures count > 0
    ensures r.Success? ==>
              && EndsAt(read, count - 1) && r.value == Concat(FirstReads(read, count - 1))
              && (r.value == [] || |r.value| <= maxSize)
    ensures r.Failure? ==>
              && r.error == TooLarge(maxSize) && NoneEmpty(read, count)
              && |Concat(FirstReads(read, count))| > maxSize
              && (count > 1 ==> |Concat(FirstReads(read, count - 1))| <= maxSize)
  {
    var chunks: seq<seq<bv8>> := [];
    var total := 0;
    count := 0;
    while true
      invariant chunks == FirstReads(read, count) && total == |Concat(chunks)|
      invariant NoneEmpty(read, count)
      invariant count > 0 ==> total <= maxSize
      invariant count == 0 ==> total == 0
      decreases maxSize - total
    {
      var chunk := read(count);
      if chunk == [] {
        return Success(Concat(chunks)), count + 1;
      }
      OneMoreRead(read, count);
      total := total + |chunk|;
      if total > maxSize {
        return Failure(TooLarge(maxSize)), count + 1;
      }
      chunks := chunks + [chunk];
      count := count + 1;
    }
  }
}
