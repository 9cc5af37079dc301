/** `UrduDramaCreator.createDrama` (script.js:26-136) as the source writes
    it: a loop over the script's lines that updates one drama object in
    place, whose current scene is the very object last pushed onto its scene
    list, so that pushing onto the current scene's lists changes that scene
    of the list. Each method is proved to compute the record functions of
    module Script, about which the properties are proved. */
module Creator {

  import opened Wrappers
  import opened Strings
  import opened Directives
  import opened Emotions
  import opened Script

  /** A scene object (script.js:48-53): its name is fixed, its three lists
      grow in place. */
  class Scene {
    const name: string
    var dialogues: seq<Entry>
    var actions: seq<string>
    var sounds: seq<string>

    constructor(name: string)
      ensures Record() == SceneRecord(name, [], [], [])
    {
      this.name := name;
      dialogues := [];
      actions := [];
      sounds := [];
    }

    /** The scene's current contents, as a value. */
    function Record(): SceneRecord
      reads this
    {
      SceneRecord(name, dialogues, actions, sounds)
    }
  }

  /** The drama object of script.js:31-38. */
  class Drama {
    const title: string
    var scenes: seq<Scene>
    var characters: set<string>
    var currentScene: Scene?
    var music: string
    var background: string

    /** The current scene is null before the first scene and the last scene
        afterwards; no scene object appears twice in the list. */
    ghost predicate Valid()
      reads this
    {
      (currentScene == null <==> scenes == []) &&
      (currentScene != null ==> currentScene == scenes[|scenes| - 1]) &&
      forall i, j :: 0 <= i < j < |scenes| ==> scenes[i] != scenes[j]
    }

    /** The drama's current contents, as a value. */
    function Record(): DramaRecord
      reads this, scenes
    {
      DramaRecord(title, seq(|scenes|, i reads this, scenes requires 0 <= i < |scenes| => scenes[i].Record()),
                  characters, music, background)
    }

    /** The object literal of script.js:31-38. */
    constructor()
      ensures Valid() && Record() == Initial
    {
      title := "Your Drama";
      scenes := [];
      characters := {};
      currentScene := null;
      music := "light";
      background := "home";
    }

    /** script.js:48-54: a new, empty scene becomes the current one and is
        pushed onto the scene list. */
    method StartScene(name: string)
      requires Valid()
      modifies this
      ensures Valid() && Record() == Apply(old(Record()), SceneLine(Some(name)))
      ensures fresh(currentScene) && scenes == old(scenes) + [currentScene]
    {
      var scene := new Scene(name);
      currentScene := scene;
      scenes := scenes + [scene];
      assert Record().scenes == old(Record()).scenes + [scene.Record()];
    }

    /** script.js:61-63: the background becomes the lower-cased argument. */
    method SetBackground(arg: string)
      requires Valid()
      modifies this
      ensures Valid() && Record() == Apply(old(Record()), BackgroundLine(Some(arg)))
      ensures scenes == old(scenes) && currentScene == old(currentScene)
    {
      background := Lower(arg);
    }

    /** script.js:69-71: the music becomes the lower-cased argument. */
    method SetMusic(arg: string)
      requires Valid()
      modifies this
      ensures Valid() && Record() == Apply(old(Record()), MusicLine(Some(arg)))
      ensures scenes == old(scenes) && currentScene == old(currentScene)
    {
      music := Lower(arg);
    }

    /** script.js:81-89: the character joins the set; when there is a current
        scene, the speech with its detected emotion is pushed onto it. */
    method AddDialogue(character: string, dialogue: string)
      requires Valid()
      modifies this, currentScene
      ensures Valid() && Record() == Apply(old(Record()), DialogueLine(character, dialogue))
      ensures scenes == old(scenes)
    {
      characters := characters + {character};
      if currentScene != null {
        currentScene.dialogues := currentScene.dialogues + [Speech(character, dialogue, DetectEmotion(dialogue))];
        SealedScenes(old(Record()));
      }
    }

    /** script.js:95-97: the action is pushed onto the current scene, if any. */
    method AddAction(action: string)
      requires Valid()
      modifies currentScene
      ensures Valid() && Record() == Apply(old(Record()), ActionLine(Some(action)))
    {
      if currentScene != null {
        currentScene.actions := currentScene.actions + [action];
        SealedScenes(old(Record()));
      }
    }

    /** script.js:103-105: the sound is pushed onto the current scene, if any. */
    method AddSound(sound: string)
      requires Valid()
      modifies currentScene
      ensures Valid() && Record() == Apply(old(Record()), SoundLine(Some(sound)))
    {
      if currentScene != null {
        currentScene.sounds := currentScene.sounds + [sound];
        SealedScenes(old(Record()));
      }
    }

    /** script.js:111-117: a pause entry, whose duration is the argument read
        as an integer or 2, is pushed onto the current scene, if any. */
    method AddPause(arg: string)
      requires Valid()
      modifies currentScene
      ensures Valid() && Record() == Apply(old(Record()), PauseLine(Some(arg)))
    {
      if currentScene != null {
        currentScene.dialogues := currentScene.dialogues + [Pause("PAUSE", "Pause for " + arg + " seconds", PauseDuration(arg))];
        SealedScenes(old(Record()));
      }
    }

    /** After a change to the current scene only, the record differs from
        `d` in its last scene alone. */
    twostate lemma SealedScenes(d: DramaRecord)
      requires old(Valid()) && d == old(Record()) && currentScene != null
      requires scenes == old(scenes) && currentScene == old(currentScene)
      requires forall i :: 0 <= i < |scenes| - 1 ==> unchanged(scenes[i])
      ensures Record().scenes == d.scenes[..|scenes| - 1] + [currentScene.Record()]
    {
    }

    /** One iteration of the loop of script.js:40-120: a blank line is
        skipped (`continue`), any other line runs the first branch of the
        chain whose test it passes. Only the drama and its current scene
        change, and the drama's record becomes `Step` of the old one. */
    method ProcessLine(line: string)
      requires Valid()
      modifies this, currentScene
      ensures Valid()
      ensures Record() == Step(old(Record()), line)
      ensures forall s :: s in scenes ==> s in old(scenes) || fresh(s)
      ensures currentScene == old(currentScene) || fresh(currentScene)
    {
      ghost var before := Record();
      ghost var kind := Classify(line);
      assert Step(before, line) == Apply(before, kind);
      var trimmed := Trim(line);
      if trimmed == [] {
        return;
      }
      var upper := Upper(trimmed);
      if Contains(upper, SceneOpen) {
        var sceneMatch := MatchTag(trimmed, SceneOpen);
        assert kind == SceneLine(sceneMatch);
        if sceneMatch.Some? {
          StartScene(sceneMatch.value);
          assert Record() == Apply(before, kind);
        }
      } else if Contains(upper, BackgroundOpen) {
        var bgMatch := MatchTag(trimmed, BackgroundOpen);
        assert kind == BackgroundLine(bgMatch);
        if bgMatch.Some? {
          SetBackground(bgMatch.value);
          assert Record() == Apply(before, kind);
        }
      } else if Contains(upper, MusicOpen) {
        var musicMatch := MatchTag(trimmed, MusicOpen);
        assert kind == MusicLine(musicMatch);
        if musicMatch.Some? {
          SetMusic(musicMatch.value);
          assert Record() == Apply(before, kind);
        }
      } else if Contains(trimmed, ":") {
        var parts := Split(trimmed, ':');
        if |parts| >= 2 {
          var character := Trim(parts[0]);
          var dialogue := Trim(Join(parts[1..], ':'));
          assert kind == DialogueLine(character, dialogue);
          AddDialogue(character, dialogue);
          assert Record() == Apply(before, kind);
        } else {
          assert kind == UnsplitDialogue;
        }
      } else if Contains(upper, ActionOpen) {
        var actionMatch := MatchTag(trimmed, ActionOpen);
        assert kind == ActionLine(actionMatch);
        if actionMatch.Some? {
          AddAction(actionMatch.value);
          assert Record() == Apply(before, kind);
        }
      } else if Contains(upper, SoundOpen) {
        var soundMatch := MatchTag(trimmed, SoundOpen);
        assert kind == SoundLine(soundMatch);
        if soundMatch.Some? {
          AddSound(soundMatch.value);
          assert Record() == Apply(before, kind);
        }
      } else if Contains(upper, PauseOpen) {
        var pauseMatch := MatchTag(trimmed, PauseOpen);
        assert kind == PauseLine(pauseMatch);
        if pauseMatch.Some? {
          AddPause(pauseMatch.value);
          assert Record() == Apply(before, kind);
        }
      } else {
        assert kind == Other;
      }
    }
  }

  /** The creator object; of its state only the last drama created is
      modelled. */
  class UrduDramaCreator {
    var currentDrama: Drama?

    /** script.js:3-4: no drama yet. */
    constructor()
      ensures currentDrama == null
    {
      currentDrama := null;
    }

    /** `createDrama(scriptText)`: splits the script at line feeds, feeds
        every line to a new drama in order, keeps the drama as the current
        one and returns it. The drama's record is `Parse(scriptText)`. */
    method CreateDrama(scriptText: string) returns (drama: Drama)
      modifies this
      ensures fresh(drama) && drama.Valid()
      ensures drama.Record() == Parse(scriptText)
      ensures currentDrama == drama
    {
      var lines := Split(scriptText, '\n');
      drama := new Drama();
      var i := 0;
      while i < |lines|
        invariant 0 <= i <= |lines|
        invariant fresh(drama) && drama.Valid()
        invariant drama.currentScene == null || fresh(drama.currentScene)
        invariant drama.Record() == ParseLines(lines[..i])
      {
        drama.ProcessLine(lines[i]);
        assert drama.Record() == ParseLines(lines[..i + 1]) by {
          ParseLinesStep(lines, i);
        }
        i := i + 1;
      }
      assert drama.Record() == Parse(scriptText) by {
        assert lines[..i] == lines;
      }
      currentDrama := drama;
    }
  }
}
