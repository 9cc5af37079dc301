/** The drama record that `createDrama` builds (script.js:26-120), as
    values: how one line is classified, what it does to the record, and the
    record that the whole script yields. The imperative loop that builds
    the record in place is in module Creator and is proved to compute
    `Parse`. */
module Script {

  import opened Wrappers
  import opened Strings
  import opened Directives
  import opened Emotions

  /** An element of a scene's `dialogues` list. Pause entries are what the
      `[PAUSE:` branch would push (script.js:113-117). */
  datatype Entry =
    | Speech(character: string, dialogue: string, emotion: Emotion)
    | Pause(character: string, dialogue: string, duration: int)

  datatype SceneRecord = SceneRecord(name: string, dialogues: seq<Entry>, actions: seq<string>, sounds: seq<string>)

  /** The drama record; its current scene, when there is one, is the last of
      `scenes`. */
  datatype DramaRecord = DramaRecord(
    title: string,
    scenes: seq<SceneRecord>,
    characters: set<string>,
    music: string,
    background: string)

  /** The record before any line is read (script.js:31-38). */
  const Initial := DramaRecord("Your Drama", [], {}, "light", "home")

  /** What the if/else-if chain of the loop makes of one line. A directive
      carries the pattern's capture, `None` when its bracket does not match. */
  datatype LineKind =
    | Blank
    | SceneLine(name: Option<string>)
    | BackgroundLine(arg: Option<string>)
    | MusicLine(arg: Option<string>)
    | DialogueLine(character: string, text: string)
    | UnsplitDialogue
    | ActionLine(arg: Option<string>)
    | SoundLine(arg: Option<string>)
    | PauseLine(arg: Option<string>)
    | Other

  /** The classification of script.js:41-119, first match wins: the scene,
      background and music tags (case-insensitive), then any `:`, then the
      action, sound and pause tags. A directive's capture holds no `]` and
      no line terminator; a character and a dialogue text neither start nor
      end with white space. */
  function Classify(line: string): (r: LineKind)
    ensures (r.SceneLine? && r.name.Some?) ==>
              forall k :: 0 <= k < |r.name.value| ==> InGroup(r.name.value[k])
    ensures (r.BackgroundLine? || r.MusicLine?) && r.arg.Some? ==>
              forall k :: 0 <= k < |r.arg.value| ==> InGroup(r.arg.value[k])
    ensures r.DialogueLine? ==>
              (r.character == [] || (!IsSpace(r.character[0]) && !IsSpace(r.character[|r.character| - 1]))) &&
              (r.text == [] || (!IsSpace(r.text[0]) && !IsSpace(r.text[|r.text| - 1])))
  {
    var t := Trim(line);
    var u := Upper(t);
    if t == [] then Blank
    else if Contains(u, SceneOpen) then SceneLine(MatchTag(t, SceneOpen))
    else if Contains(u, BackgroundOpen) then BackgroundLine(MatchTag(t, BackgroundOpen))
    else if Contains(u, MusicOpen) then MusicLine(MatchTag(t, MusicOpen))
    else if Contains(t, ":") then
      var parts := Split(t, ':');
      if |parts| >= 2 then DialogueLine(Trim(parts[0]), Trim(Join(parts[1..], ':')))
      else UnsplitDialogue
    else if Contains(u, ActionOpen) then ActionLine(MatchTag(t, ActionOpen))
    else if Contains(u, SoundOpen) then SoundLine(MatchTag(t, SoundOpen))
    else if Contains(u, PauseOpen) then PauseLine(MatchTag(t, PauseOpen))
    else Other
  }

  function LastScene(d: DramaRecord): SceneRecord
    requires d.scenes != []
  {
    d.scenes[|d.scenes| - 1]
  }

  /** The record with its last scene replaced by `s`. */
  function WithLastScene(d: DramaRecord, s: SceneRecord): DramaRecord
    requires d.scenes != []
  {
    d.(scenes := d.scenes[..|d.scenes| - 1] + [s])
  }

  /** `currentScene.dialogues.push(e)`. */
  function PushEntry(d: DramaRecord, e: Entry): DramaRecord
    requires d.scenes != []
  {
    var s := LastScene(d);
    WithLastScene(d, s.(dialogues := s.dialogues + [e]))
  }

  /** What a classified line does to the record (one iteration of
      script.js:40-120). The title never changes; characters are only
      added, and only by dialogue; at most one scene is added, and every
      scene but the current one stays as it was. */
  function Apply(d: DramaRecord, kind: LineKind): (r: DramaRecord)
    ensures r.title == d.title
    ensures d.characters <= r.characters
    ensures !kind.DialogueLine? ==> r.characters == d.characters
    ensures |d.scenes| <= |r.scenes| <= |d.scenes| + 1
  {
    match kind
    case SceneLine(Some(name)) => d.(scenes := d.scenes + [SceneRecord(name, [], [], [])])
    case BackgroundLine(Some(arg)) => d.(background := Lower(arg))
    case MusicLine(Some(arg)) => d.(music := Lower(arg))
    case DialogueLine(character, text) =>
      var d' := d.(characters := d.characters + {character});
      if d'.scenes == [] then d' else PushEntry(d', Speech(character, text, DetectEmotion(text)))
    case ActionLine(Some(arg)) =>
      if d.scenes == [] then d
      else WithLastScene(d, LastScene(d).(actions := LastScene(d).actions + [arg]))
    case SoundLine(Some(arg)) =>
      if d.scenes == [] then d
      else WithLastScene(d, LastScene(d).(sounds := LastScene(d).sounds + [arg]))
    case PauseLine(Some(arg)) =>
      if d.scenes == [] then d
      else PushEntry(d, Pause("PAUSE", "Pause for " + arg + " seconds", PauseDuration(arg)))
    case _ => d
  }

  /** A line changes no scene but the current one. */
  lemma ApplySealsScenes(d: DramaRecord, kind: LineKind)
    ensures forall i :: 0 <= i < |d.scenes| - 1 ==> Apply(d, kind).scenes[i] == d.scenes[i]
  {
  }

  /** What one line does to the record: the title stays, characters are
      only added, at most one scene is added, and every scene but the
      current one stays as it was. */
  function Step(d: DramaRecord, line: string): (r: DramaRecord)
    ensures r.title == d.title
    ensures d.characters <= r.characters
    ensures |d.scenes| <= |r.scenes| <= |d.scenes| + 1
  {
    Apply(d, Classify(line))
  }

  /** The record after the lines, read in order: still titled as the
      initial record, and with at most one scene per line. */
  function ParseLines(lines: seq<string>): (r: DramaRecord)
    ensures r.title == Initial.title
    ensures |r.scenes| <= |lines|
  {
    if lines == [] then Initial
    else Step(ParseLines(lines[..|lines| - 1]), lines[|lines| - 1])
  }

  /** Reading one more line is one more step. */
  lemma ParseLinesStep(lines: seq<string>, i: nat)
    requires i < |lines|
    ensures ParseLines(lines[..i + 1]) == Step(ParseLines(lines[..i]), lines[i])
  {
    assert lines[..i + 1][..i] == lines[..i];
  }

  /** `createDrama(scriptText)`'s record: titled `Your Drama`, with at most
      one scene per line of the script. */
  function Parse(scriptText: string): (r: DramaRecord)
    ensures r.title == "Your Drama"
    ensures |r.scenes| <= |Split(scriptText, '\n')|
  {
    ParseLines(Split(scriptText, '\n'))
  }

  /** The classification of each line. */
  function Kinds(lines: seq<string>): (kinds: seq<LineKind>)
    ensures |kinds| == |lines|
  {
    if lines == [] then [] else Kinds(lines[..|lines| - 1]) + [Classify(lines[|lines| - 1])]
  }

  /** The record after lines classified as `kinds`. */
  function Build(kinds: seq<LineKind>): DramaRecord {
    if kinds == [] then Initial
    else Apply(Build(kinds[..|kinds| - 1]), kinds[|kinds| - 1])
  }

  /** Parsing is classifying every line, then applying the classifications
      in order. */
  lemma {:induction false} ParseLinesIsBuild(lines: seq<string>)
    ensures ParseLines(lines) == Build(Kinds(lines))
  {
    if lines != [] {
      ParseLinesIsBuild(lines[..|lines| - 1]);
      assert Kinds(lines)[..|lines| - 1] == Kinds(lines[..|lines| - 1]);
    }
  }

  lemma KindsAt(lines: seq<string>, i: int)
    requires 0 <= i < |lines|
    ensures Kinds(lines)[i] == Classify(lines[i])
  {
    if i < |lines| - 1 {
      KindsAt(lines[..|lines| - 1], i);
    }
  }

  // ---------------------------------------------------------------------
  // One line
  // ---------------------------------------------------------------------

  /** A line that is empty or white space only changes nothing. */
  lemma BlankLineIsNoOp(d: DramaRecord, line: string)
    requires AllSpace(line)
    ensures Step(d, line) == d
  {
  }

  /** A line whose first scene, background or music tag (tested in that
      order) has a bracket pattern that does not match changes nothing, even
      when the line holds a `:`: it never reaches the dialogue branch. */
  lemma MalformedDirectiveIsNoOp(d: DramaRecord, line: string)
    requires var t := Trim(line);
             var u := Upper(t);
             if Contains(u, SceneOpen) then MatchTag(t, SceneOpen).None?
             else if Contains(u, BackgroundOpen) then MatchTag(t, BackgroundOpen).None?
             else Contains(u, MusicOpen) && MatchTag(t, MusicOpen).None?
    ensures Step(d, line) == d
  {
    var t := Trim(line);
    var u := Upper(t);
    if t == [] {
      assert |u| == 0;
    } else if Contains(u, SceneOpen) {
      assert Classify(line) == SceneLine(None);
    } else if Contains(u, BackgroundOpen) {
      assert Classify(line) == BackgroundLine(None);
    } else {
      assert Classify(line) == MusicLine(None);
    }
  }

  /** Every tag the chain tests after the dialogue branch holds a `:`, so a
      line with `[ACTION:`, `[SOUND:` or `[PAUSE:` in it (in any case) is
      always caught earlier: the last three branches are dead, and so is the
      branch for a `:` line that splits into fewer than two parts. */
  lemma LateBranchesAreDead(line: string)
    ensures !Classify(line).ActionLine? && !Classify(line).SoundLine? && !Classify(line).PauseLine?
    ensures !Classify(line).UnsplitDialogue?
  {
    var t := Trim(line);
    var u := Upper(t);
    ContainsChar(t, ':');
    if t == [] {
    } else if Contains(u, SceneOpen) {
    } else if Contains(u, BackgroundOpen) {
    } else if Contains(u, MusicOpen) {
    } else if Contains(t, ":") {
      SplitAtFirst(t, ':');
      assert Classify(line).DialogueLine?;
    } else {
      if Contains(u, ActionOpen) {
        UpperContainsNonLetter(t, ActionOpen, |ActionOpen| - 1);
        assert false;
      }
      if Contains(u, SoundOpen) {
        UpperContainsNonLetter(t, SoundOpen, |SoundOpen| - 1);
        assert false;
      }
      if Contains(u, PauseOpen) {
        UpperContainsNonLetter(t, PauseOpen, |PauseOpen| - 1);
        assert false;
      }
      assert Classify(line) == Other;
    }
  }

  /** A line is dialogue exactly when, trimmed, it is not blank, holds no
      scene, background or music tag, and holds a `:`; the character is the
      trimmed text before the first `:` and the dialogue the trimmed text
      after it. */
  lemma DialogueLineParts(line: string)
    ensures var t := Trim(line);
            var u := Upper(t);
            Classify(line).DialogueLine? <==>
              t != [] && !Contains(u, SceneOpen) && !Contains(u, BackgroundOpen) &&
              !Contains(u, MusicOpen) && ':' in t
    ensures var t := Trim(line);
            Classify(line).DialogueLine? ==>
              Classify(line).character == Trim(t[..Find(t, ':', 0)]) &&
              Classify(line).text == Trim(t[Find(t, ':', 0) + 1..])
  {
    var t := Trim(line);
    var u := Upper(t);
    ContainsChar(t, ':');
    if t == [] {
    } else if Contains(u, SceneOpen) {
    } else if Contains(u, BackgroundOpen) {
    } else if Contains(u, MusicOpen) {
    } else if Contains(t, ":") {
      SplitAtFirst(t, ':');
      var parts := Split(t, ':');
      assert Classify(line) == DialogueLine(Trim(parts[0]), Trim(Join(parts[1..], ':')));
    } else {
      LateBranchesAreDead(line);
      assert !Classify(line).DialogueLine?;
    }
  }

  /** The line `[PAUSE: 3]` is not a pause: it is the character `[PAUSE`
      saying `3]`. */
  lemma PauseTagIsSpoken()
    ensures Classify("[PAUSE: 3]") == DialogueLine("[PAUSE", "3]")
  {
    PauseLineHasNoEarlierTag();
    PauseLineSplits();
    DialogueLineParts("[PAUSE: 3]");
  }

  /** The first `:` of `[PAUSE: 3]` is at index 6; trimmed, the text before
      it is `[PAUSE` and the text after it `3]`. */
  lemma PauseLineSplits()
    ensures Find("[PAUSE: 3]", ':', 0) == 6
    ensures Trim("[PAUSE: 3]"[..6]) == "[PAUSE"
    ensures Trim("[PAUSE: 3]"[7..]) == "3]"
  {
    var line := "[PAUSE: 3]";
    assert Find(line, ':', 6) == 6;
    assert Find(line, ':', 5) == 6;
    assert Find(line, ':', 4) == 6;
    assert Find(line, ':', 3) == 6;
    assert Find(line, ':', 2) == 6;
    assert Find(line, ':', 1) == 6;
    assert line[..6] == "[PAUSE";
    assert SkipSpace("[PAUSE", 0) == 0;
    assert SkipSpaceBack("[PAUSE", 0, 6) == 6;
    assert line[7..] == " 3]";
    assert SkipSpace(" 3]", 0) == 1;
    assert SkipSpaceBack(" 3]", 1, 3) == 3;
  }

  /** `[PAUSE: 3]` trims and upper-cases to itself and holds no scene,
      background or music tag. */
  lemma PauseLineHasNoEarlierTag()
    ensures Trim("[PAUSE: 3]") == "[PAUSE: 3]"
    ensures Upper("[PAUSE: 3]") == "[PAUSE: 3]"
    ensures !Contains("[PAUSE: 3]", SceneOpen)
    ensures !Contains("[PAUSE: 3]", BackgroundOpen)
    ensures !Contains("[PAUSE: 3]", MusicOpen)
  {
    var line := "[PAUSE: 3]";
    assert SkipSpace(line, 0) == 0;
    assert SkipSpaceBack(line, 0, |line|) == |line|;
    assert Upper(line) == line by {
      forall i | 0 <= i < |line| ensures Upper(line)[i] == line[i] { }
    }
    forall i | 0 <= i <= |line| - |SceneOpen| ensures !OccursAt(line, SceneOpen, i) {
      assert line[i + 2] != SceneOpen[2];
    }
    forall i | 0 <= i <= |line| - |MusicOpen| ensures !OccursAt(line, MusicOpen, i) {
      assert line[i + 1] != MusicOpen[1];
    }
  }

  // ---------------------------------------------------------------------
  // The whole script, against line-by-line reference definitions
  // ---------------------------------------------------------------------

  /** The names of the well-formed scene lines, in order. */
  function SceneNames(kinds: seq<LineKind>): seq<string> {
    if kinds == [] then []
    else
      var rest := SceneNames(kinds[..|kinds| - 1]);
      match kinds[|kinds| - 1]
      case SceneLine(Some(name)) => rest + [name]
      case _ => rest
  }

  /** The characters of all dialogue lines. */
  function Speakers(kinds: seq<LineKind>): set<string> {
    set k | k in kinds && k.DialogueLine? :: k.character
  }

  /** The argument of the last well-formed background directive. */
  function LastBackground(kinds: seq<LineKind>): Option<string> {
    if kinds == [] then None
    else match kinds[|kinds| - 1]
      case BackgroundLine(Some(arg)) => Some(arg)
      case _ => LastBackground(kinds[..|kinds| - 1])
  }

  /** The argument of the last well-formed music directive. */
  function LastMusic(kinds: seq<LineKind>): Option<string> {
    if kinds == [] then None
    else match kinds[|kinds| - 1]
      case MusicLine(Some(arg)) => Some(arg)
      case _ => LastMusic(kinds[..|kinds| - 1])
  }

  function SpeechOf(kind: LineKind): Entry
    requires kind.DialogueLine?
  {
    Speech(kind.character, kind.text, DetectEmotion(kind.text))
  }

  /** The speech of every dialogue line that some well-formed scene line
      precedes, in order. */
  function StoredSpeech(kinds: seq<LineKind>): seq<Entry> {
    if kinds == [] then []
    else
      var before := kinds[..|kinds| - 1];
      var kind := kinds[|kinds| - 1];
      StoredSpeech(before) + if kind.DialogueLine? && SceneNames(before) != [] then [SpeechOf(kind)] else []
  }

  /** The speech of the dialogue lines after the last well-formed scene
      line. */
  function SpeechSinceLastScene(kinds: seq<LineKind>): seq<Entry> {
    if kinds == [] then []
    else
      var before := kinds[..|kinds| - 1];
      var kind := kinds[|kinds| - 1];
      if kind.SceneLine? && kind.name.Some? then []
      else if kind.DialogueLine? then SpeechSinceLastScene(before) + [SpeechOf(kind)]
      else SpeechSinceLastScene(before)
  }

  /** All scenes' dialogue entries, scene after scene. */
  function AllEntries(scenes: seq<SceneRecord>): seq<Entry> {
    if scenes == [] then [] else AllEntries(scenes[..|scenes| - 1]) + scenes[|scenes| - 1].dialogues
  }

  /** No line of these kinds reaches a dead branch. */
  predicate Reachable(kinds: seq<LineKind>) {
    forall i :: 0 <= i < |kinds| ==>
      !kinds[i].ActionLine? && !kinds[i].SoundLine? && !kinds[i].PauseLine? && !kinds[i].UnsplitDialogue?
  }

  /** No scene holds an action, a sound or a pause. */
  predicate OnlySpeech(d: DramaRecord) {
    forall i :: 0 <= i < |d.scenes| ==>
      d.scenes[i].actions == [] && d.scenes[i].sounds == [] &&
      forall e :: e in d.scenes[i].dialogues ==> e.Speech?
  }

  /** One scene is added per well-formed scene line, in order, named by its
      capture; no other line adds or renames a scene. */
  lemma {:induction false} BuildScenes(kinds: seq<LineKind>)
    ensures |Build(kinds).scenes| == |SceneNames(kinds)|
    ensures forall i :: 0 <= i < |SceneNames(kinds)| ==> Build(kinds).scenes[i].name == SceneNames(kinds)[i]
  {
    if kinds != [] {
      var before := kinds[..|kinds| - 1];
      var last := kinds[|kinds| - 1];
      BuildScenes(before);
      ApplyScenes(Build(before), last);
      if last.SceneLine? && last.name.Some? {
        assert SceneNames(kinds) == SceneNames(before) + [last.name.value];
      } else {
        assert SceneNames(kinds) == SceneNames(before);
      }
    }
  }

  /** Only a well-formed scene line adds a scene, and no line renames one. */
  lemma ApplyScenes(d: DramaRecord, kind: LineKind)
    ensures kind.SceneLine? && kind.name.Some? ==>
              Apply(d, kind).scenes == d.scenes + [SceneRecord(kind.name.value, [], [], [])]
    ensures !(kind.SceneLine? && kind.name.Some?) ==>
              |Apply(d, kind).scenes| == |d.scenes| &&
              forall i :: 0 <= i < |d.scenes| ==> Apply(d, kind).scenes[i].name == d.scenes[i].name
  {
  }

  /** The characters are those of every dialogue line, including the ones
      read before any scene exists. */
  lemma {:induction false} BuildCharacters(kinds: seq<LineKind>)
    ensures Build(kinds).characters == Speakers(kinds)
  {
    if kinds != [] {
      var before := kinds[..|kinds| - 1];
      BuildCharacters(before);
      assert kinds == before + [kinds[|kinds| - 1]];
      assert forall k :: k in kinds <==> k in before || k == kinds[|kinds| - 1];
    }
  }

  /** Background and music are the lower-cased argument of the last
      well-formed directive of their kind, or the defaults. */
  lemma {:induction false} BuildBackgroundAndMusic(kinds: seq<LineKind>)
    ensures Build(kinds).background == match LastBackground(kinds) case Some(a) => Lower(a) case None => "home"
    ensures Build(kinds).music == match LastMusic(kinds) case Some(a) => Lower(a) case None => "light"
  {
    if kinds != [] {
      BuildBackgroundAndMusic(kinds[..|kinds| - 1]);
    }
  }

  lemma {:induction false} AllEntriesPush(d: DramaRecord, e: Entry)
    requires d.scenes != []
    ensures AllEntries(PushEntry(d, e).scenes) == AllEntries(d.scenes) + [e]
  {
    var n := |d.scenes|;
    var scenes' := PushEntry(d, e).scenes;
    assert scenes'[..n - 1] == d.scenes[..n - 1];
  }

  /** The stored entries are the speech of the dialogue lines that follow the
      first well-formed scene line: those read before it are dropped. */
  lemma {:induction false} BuildEntries(kinds: seq<LineKind>)
    requires Reachable(kinds)
    ensures AllEntries(Build(kinds).scenes) == StoredSpeech(kinds)
  {
    if kinds != [] {
      var before := kinds[..|kinds| - 1];
      var kind := kinds[|kinds| - 1];
      var d := Build(before);
      BuildEntries(before);
      BuildScenes(before);
      match kind
      case SceneLine(Some(name)) =>
        assert Apply(d, kind).scenes[..|d.scenes|] == d.scenes;
      case DialogueLine(c, x) =>
        var d' := d.(characters := d.characters + {c});
        if d.scenes != [] {
          AllEntriesPush(d', Speech(c, x, DetectEmotion(x)));
        }
      case _ =>
    }
  }

  /** The current scene collects the speech of the dialogue lines read since
      it was created. */
  lemma {:induction false} BuildCurrentScene(kinds: seq<LineKind>)
    requires Reachable(kinds)
    requires Build(kinds).scenes != []
    ensures LastScene(Build(kinds)).dialogues == SpeechSinceLastScene(kinds)
  {
    var before := kinds[..|kinds| - 1];
    var kind := kinds[|kinds| - 1];
    assert Reachable(before) by {
      forall i | 0 <= i < |before| ensures before[i] == kinds[i] { }
    }
    ApplyCurrentScene(Build(before), kind);
    if Build(before).scenes != [] {
      BuildCurrentScene(before);
    }
  }

  /** What a reachable line does to the current scene's speech: a new scene
      starts empty, a dialogue line appends its speech, any other line
      leaves it as it was. */
  lemma ApplyCurrentScene(d: DramaRecord, kind: LineKind)
    requires !kind.ActionLine? && !kind.SoundLine? && !kind.PauseLine?
    ensures kind.SceneLine? && kind.name.Some? ==> LastScene(Apply(d, kind)).dialogues == []
    ensures kind.DialogueLine? && d.scenes != [] ==>
              LastScene(Apply(d, kind)).dialogues == LastScene(d).dialogues + [SpeechOf(kind)]
    ensures !(kind.SceneLine? && kind.name.Some?) && !kind.DialogueLine? && d.scenes != [] ==>
              LastScene(Apply(d, kind)).dialogues == LastScene(d).dialogues
  {
  }

  /** A scene that is no longer the current one never changes again. */
  lemma {:induction false} BuildSealsScenes(kinds: seq<LineKind>, j: nat)
    requires j <= |kinds|
    ensures |Build(kinds[..j]).scenes| <= |Build(kinds).scenes|
    ensures forall i :: 0 <= i < |Build(kinds[..j]).scenes| - 1 ==>
              Build(kinds).scenes[i] == Build(kinds[..j]).scenes[i]
    decreases |kinds| - j
  {
    if j < |kinds| {
      BuildSealsScenes(kinds, j + 1);
      var d := Build(kinds[..j]);
      assert Build(kinds[..j + 1]) == Apply(d, kinds[j]) by {
        assert kinds[..j + 1][..j] == kinds[..j];
      }
      ApplySealsScenes(d, kinds[j]);
    } else {
      assert kinds[..j] == kinds;
    }
  }

  /** With no line reaching a dead branch, no action, sound or pause is ever
      recorded. */
  lemma {:induction false} BuildOnlySpeech(kinds: seq<LineKind>)
    requires Reachable(kinds)
    ensures OnlySpeech(Build(kinds))
  {
    if kinds != [] {
      BuildOnlySpeech(kinds[..|kinds| - 1]);
    }
  }

  // ---------------------------------------------------------------------
  // The whole script
  // ---------------------------------------------------------------------

  /** No line of any script reaches the action, sound or pause branch. */
  lemma AllLinesReachable(lines: seq<string>)
    ensures Reachable(Kinds(lines))
  {
    forall i | 0 <= i < |lines|
      ensures !Kinds(lines)[i].ActionLine? && !Kinds(lines)[i].SoundLine? &&
              !Kinds(lines)[i].PauseLine? && !Kinds(lines)[i].UnsplitDialogue?
    {
      KindsAt(lines, i);
      LateBranchesAreDead(lines[i]);
    }
  }

  /** Whatever the script, every scene's actions and sounds stay empty and
      every dialogue entry is speech, without a duration. */
  lemma ParseOnlySpeech(scriptText: string)
    ensures OnlySpeech(Parse(scriptText))
  {
    var lines := Split(scriptText, '\n');
    ParseLinesIsBuild(lines);
    AllLinesReachable(lines);
    BuildOnlySpeech(Kinds(lines));
  }

  /** The characters of the record are those of the script's dialogue
      lines. */
  lemma ParseCharacters(scriptText: string)
    ensures Parse(scriptText).characters == Speakers(Kinds(Split(scriptText, '\n')))
  {
    var lines := Split(scriptText, '\n');
    ParseLinesIsBuild(lines);
    BuildCharacters(Kinds(lines));
  }

  /** With no well-formed scene line the record has no scene and stores no
      dialogue. */
  lemma ParseWithoutScenes(scriptText: string)
    requires SceneNames(Kinds(Split(scriptText, '\n'))) == []
    ensures Parse(scriptText).scenes == []
    ensures AllEntries(Parse(scriptText).scenes) == []
  {
    var lines := Split(scriptText, '\n');
    ParseLinesIsBuild(lines);
    BuildScenes(Kinds(lines));
  }
}
