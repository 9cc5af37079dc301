# Urdu Drama Creator: the script parser, in Dafny

This project models the script parser of the Urdu Drama Creator
(`UrduDramaCreator.createDrama` in `script.js`) and the emotion classifier
it calls (`detectEmotion`). It proves what the parser builds.

A script is text. `createDrama` splits it at line feeds and trims each line.
It skips blank lines and sends every other line through a fixed if/else-if
chain:

1. a `[SCENE:` tag;
2. a `[BACKGROUND:` tag;
3. a `[MUSIC:` tag;
4. any `:` (a line of dialogue);
5. `[ACTION:`, `[SOUND:` and `[PAUSE:` tags.

The tag tests ignore case. Each tag's argument is extracted with the pattern
`/\[TAG:\s*(.*?)\]/i`. The drama record holds:

- a list of scenes;
- a set of characters;
- the last background and the last music;
- a `currentScene` reference, which aliases the scene pushed last, so that
  dialogue is pushed into that scene of the list.

The sharpest consequence, proved here: every `[ACTION:`, `[SOUND:` and
`[PAUSE:` tag contains a `:`, so such a line never reaches branches 5-7: one
of branches 1-4 takes it first, and that is branch 4 unless the line also
holds a scene, background or music tag. The last three branches can never
run. `[PAUSE: 3]` is a line in which the
character `[PAUSE` says `3]`. No scene ever holds an action, a sound or a
pause.

Modules:

- `Strings` (`strings.dfy`): the JavaScript string operations used: `trim`,
  ASCII `toUpperCase`/`toLowerCase`, `includes`, `split` on one character,
  `join`.
- `Directives` (`directives.dfy`): the directive pattern and
  `parseInt(arg) || 2`.
- `Emotions` (`emotions.dfy`): `detectEmotion`.
- `Script` (`script.dfy`): the parser on values.
  - `Classify` is the branch chain.
  - `Apply` and `Step` are the effect of one line on a `DramaRecord`.
  - `ParseLines` and `Parse` are the whole loop.
  - `Build` folds `Apply` over the classified lines. Independent reference
    definitions (`SceneNames`, `Speakers`, `LastBackground`,
    `StoredSpeech`, ...) describe the result line by line, and lemmas
    connect the two.
- `Creator` (`creator.dfy`): the imperative code as the source writes it.
  - Classes `Scene`, `Drama` and `UrduDramaCreator` have fields updated in
    place.
  - `Drama.currentScene` aliases the last element of `Drama.scenes`.
  - `CreateDrama` holds the line loop.
  - `Drama.ProcessLine` is one iteration and follows the same if/else-if
    chain.
  - Each method is proved to compute the corresponding `Script` function
    of the drama's contents (`Drama.Record()`).

## Model

| member | source | states |
|---|---|---|
| `Strings.Trim` | script.js:41 | `trim()`: the result is no longer than the line and neither starts nor ends with white space; that it is the line minus its surrounding white space is `TrimIsInfix`, and that it is empty only for white space `TrimEmpty` |
| `Strings.Upper` | script.js:45 | ASCII `toUpperCase()`: as long as the line, with no lower-case ASCII letter left; upper-casing never creates a non-letter (`UpperContainsNonLetter`) |
| `Strings.Lower` | script.js:140 | ASCII `toLowerCase()`: as long as the dialogue, with no upper-case ASCII letter left; idempotent and blind to a prior upper-casing (`LowerIdempotent`, `LowerOfUpper`) |
| `Strings.Contains` | script.js:45-75 | `includes(p)`, used by each branch test: the empty pattern is always included, a pattern longer than the text never; for one character it is membership (`ContainsChar`) |
| `Strings.Split` | script.js:76 | `split(c)` always yields at least one piece; its pieces hold no `c` and rejoin to the line (`JoinSplit`), and the first piece ends at the first `c` (`SplitAtFirst`) |
| `Strings.Join` | script.js:79 | `join(c)` of at least one part is as long as the parts together plus one separator between each two; it inverts `Split` (`JoinSplit`) |
| `Strings.SkipSpace` | script.js:41 | the index returned is the first one at or after the start that does not hold white space; everything skipped is white space |
| `Strings.TrimIsInfix` | script.js:41 | a trimmed line is an infix of the line that neither starts nor ends with white space, and only white space is dropped around it |
| `Strings.TrimEmpty` | script.js:41-42 | a line trims to the empty string exactly when it is all white space |
| `Strings.LowerIdempotent` | script.js:140 | lower-casing twice is lower-casing once |
| `Strings.LowerOfUpper` | script.js:140 | lower-casing an upper-cased string is lower-casing the string |
| `Strings.UpperContainsNonLetter` | script.js:94 | if the upper-cased line contains a pattern, it contains each non-letter of the pattern itself |
| `Strings.ContainsChar` | script.js:75 | `includes(':')` holds exactly when the line has a `:` |
| `Strings.Find` | script.js:76 | the index returned is that of the first `c` at or after the start, or the length when there is none |
| `Strings.SplitFromPieces` | script.js:76 | no piece of a split holds the separator |
| `Strings.JoinSplitFrom` | script.js:76-79 | joining the pieces of a split of a suffix gives the suffix back |
| `Strings.JoinSplit` | script.js:76-79 | `split(c)` then `join(c)` is the identity, and no piece holds `c` |
| `Strings.SplitAtFirst` | script.js:76-79 | a line with a `:` splits into at least two pieces; the first is the text before the first `:` and the others rejoined with `:` are the text after it |
| `Directives.MatchAt` | script.js:46 | one attempt of the pattern at a start position succeeds only where the upper-cased line holds the opening, and its capture holds no `]` and no line terminator; it is exactly a way of matching there (`CapturesAtFound`, `MatchAtCaptures`) |
| `Directives.MatchFrom` | script.js:46 | the search from a position fails once the opening no longer fits, and its capture holds no `]` and no line terminator; it returns the first successful attempt (`MatchFromSome`, `MatchFromNone`) |
| `Directives.MatchTag` | script.js:46-111 | `match` of each of the six directive patterns (lines 46, 60, 68, 95, 103, 111) fails on a line shorter than the opening, and a capture holds no `]` and no line terminator; leftmost-match semantics in `MatchTagLeftmost` |
| `Directives.CloseAt` | script.js:46 | the index found holds a `]`, and every character before it from the start is neither `]` nor a line terminator |
| `Directives.SkipSpaceFinds` | script.js:46 | `\s*` stops at the first non-space character |
| `Directives.CloseAtFinds` | script.js:46 | the lazy group stops at the first `]` when no line terminator precedes it |
| `Directives.CapturesAtFound` | script.js:46 | any way of matching the pattern at a start position is what the attempt at that position returns |
| `Directives.MatchAtCaptures` | script.js:46 | what the attempt at a start position returns is a way of matching there |
| `Directives.CapturesAtUnique` | script.js:46 | at one start position the pattern matches in at most one way |
| `Directives.MatchFromSome` | script.js:46 | a successful search returns the first start position whose attempt succeeds |
| `Directives.MatchFromNone` | script.js:46 | a failed search means every attempt from the start fails |
| `Directives.MatchTagLeftmost` | script.js:46 | `match` fails exactly when the pattern matches nowhere; otherwise it captures the argument at the leftmost start position where it matches |
| `Directives.MatchNeedsClosingBracket` | script.js:46-47 | a directive matches only when the line holds a `]` |
| `Directives.DigitEnd` | script.js:116 | the index returned ends the longest run of digits of the radix from the start |
| `Directives.ParseInt` | script.js:116 | `parseInt(arg)` reads a number only when the numeral, after white space and a sign, starts with a decimal digit, so a blank argument is NaN; its values are in `ParseIntOfDigits`, `ParseIntOfNumeral` and `ParseIntOfHex` |
| `Directives.PauseDuration` | script.js:116 | the pause length, `parseInt(arg)` or else 2, is never 0: it is the parsed number when that is a non-zero number, and 2 for NaN and zero |
| `Directives.DigitEndAll` | script.js:116 | a run of digits extends to the end of a string made of digits only |
| `Directives.ParseIntOfDigits` | script.js:116 | `parseInt` of a string whose numeral is all decimal digits is their value, with the sign applied |
| `Directives.ParseIntOfNumeral` | script.js:116 | `parseInt` of a decimal numeral, possibly negative, is its value |
| `Directives.PauseDurationOfNumeral` | script.js:116 | a pause written as a decimal numeral lasts that many seconds, negative ones included, and 2 for zero |
| `Directives.ParseIntOfHex` | script.js:116 | a `0x` prefix makes `parseInt` read base 16 |
| `Directives.PauseDurationWithoutDigits` | script.js:116 | an argument whose numeral does not start with a digit gives 2 |
| `Emotions.DetectEmotion` | script.js:139-147 | `detectEmotion`: a `(happy)` tag in any case gives happy, and a neutral dialogue holds none of the five parenthesised tags; the full first-match rule over `Groups` is `DetectEmotionFirstMatch` |
| `Emotions.GroupMatchesAny` | script.js:141-145 | a group matches exactly when one of its three markers occurs |
| `Emotions.DetectEmotionFirstMatch` | script.js:139-147 | the emotion is that of the first group, in the order happy, sad, angry, nervous, romantic, with a marker in the lower-cased dialogue; it is neutral exactly when no marker of any group occurs |
| `Emotions.DetectEmotionIgnoresCase` | script.js:140 | upper- or lower-casing the dialogue first does not change the emotion |
| `Emotions.DetectEmotionHappyTag` | script.js:141 | a `(happy)` tag anywhere makes the dialogue happy |
| `Script.Classify` | script.js:41-119 | the if/else-if chain for one line: a scene, background or music capture holds no `]` and no line terminator, and a character and a dialogue text neither start nor end with white space; which lines are dialogue is `DialogueLineParts`, and that no line reaches the action, sound or pause branch `LateBranchesAreDead` |
| `Script.Apply` | script.js:45-119 | the effect of one classified line: the title never changes, characters are only added and only by dialogue, and at most one scene is added |
| `Script.ApplyScenes` | script.js:45-56 | only a well-formed scene line adds a scene, empty and named by its capture; no line renames a scene |
| `Script.ApplySealsScenes` | script.js:83-89 | a line changes no scene but the current one |
| `Script.ApplyCurrentScene` | script.js:48-89 | a new scene starts with no speech, a dialogue line appends its speech to the current scene, and any other reachable line leaves that speech as it was |
| `Script.Step` | script.js:41-119 | what one line does: the title stays, characters are only added, and at most one scene is added |
| `Script.ParseLines` | script.js:40-120 | the record after the lines keeps the initial title and has at most one scene per line; one more line is one more `Step` (`ParseLinesStep`) |
| `Script.Parse` | script.js:30-120 | the record of a script is titled `Your Drama` and has at most one scene per line of the script; its scenes, characters, entries and settings are in the `Build` lemmas and `ParseCharacters`, `ParseOnlySpeech`, `ParseWithoutScenes` |
| `Script.ParseLinesStep` | script.js:40-120 | reading one more line applies one more step |
| `Script.ParseLinesIsBuild` | script.js:40-120 | parsing the lines is classifying each line and applying the classifications in order |
| `Script.KindsAt` | script.js:40-41 | the classification of the i-th line is `Classify` of that line |
| `Script.BlankLineIsNoOp` | script.js:41-42 | a blank or white-space-only line changes nothing |
| `Script.MalformedDirectiveIsNoOp` | script.js:45-72 | when the first scene, background or music tag of a line (in that order) does not match its pattern, the line changes nothing, even if it holds a `:` |
| `Script.LateBranchesAreDead` | script.js:75-119 | no line is classified as action, sound or pause, and no `:` line splits into fewer than two parts: those branches are dead |
| `Script.DialogueLineParts` | script.js:75-79 | a line is dialogue exactly when, trimmed, it is non-empty, holds no scene, background or music tag, and holds a `:`; the character is the trimmed text before the first `:` and the dialogue the trimmed text after it |
| `Script.PauseTagIsSpoken` | script.js:75-117 | the line `[PAUSE: 3]` is dialogue in which the character `[PAUSE` says `3]`, not a pause |
| `Script.PauseLineHasNoEarlierTag` | script.js:41-72 | `[PAUSE: 3]` trims and upper-cases to itself and holds no scene, background or music tag |
| `Script.PauseLineSplits` | script.js:76-79 | the first `:` of `[PAUSE: 3]` is at index 6, and the trimmed text around it is `[PAUSE` and `3]` |
| `Script.BuildScenes` | script.js:45-56 | one scene is added per well-formed scene line, in order, named by the pattern's capture; no other line adds or renames a scene |
| `Script.BuildCharacters` | script.js:81 | the characters are those of every dialogue line, including lines before any scene |
| `Script.BuildBackgroundAndMusic` | script.js:58-72 | background and music are the lower-cased argument of the last well-formed directive of their kind, or `home` and `light` |
| `Script.AllEntriesPush` | script.js:83-89 | pushing an entry onto the current scene appends it to the entries of all scenes in order |
| `Script.BuildEntries` | script.js:83-89 | the stored entries, scene after scene, are the speech (with its detected emotion) of the dialogue lines after the first well-formed scene line, in order |
| `Script.BuildCurrentScene` | script.js:83-89 | the current scene holds the speech of the dialogue lines read since it was created |
| `Script.BuildSealsScenes` | script.js:48-54 | a scene that is no longer the current one never changes again |
| `Script.BuildOnlySpeech` | script.js:93-119 | when no line reaches a dead branch, no scene holds an action, a sound or a pause |
| `Script.AllLinesReachable` | script.js:75-119 | no line of any script reaches the action, sound or pause branch |
| `Script.ParseOnlySpeech` | script.js:93-119 | for every script, the actions and sounds of every scene stay empty and every entry is speech, never a pause with a duration |
| `Script.ParseCharacters` | script.js:74-91 | the characters of the parsed drama are those of the script's dialogue lines |
| `Script.ParseWithoutScenes` | script.js:44-91 | with no well-formed scene line, the drama has no scene and stores no dialogue |
| `Creator.Scene.constructor` | script.js:48-53 | a new scene has its name and empty dialogue, action and sound lists |
| `Creator.Drama.constructor` | script.js:31-38 | a new drama has title `Your Drama`, no scene, no character, music `light` and background `home`, and no current scene |
| `Creator.Drama.StartScene` | script.js:48-54 | a fresh scene becomes the current one and is pushed onto the list; the rest is unchanged |
| `Creator.Drama.SetBackground` | script.js:61-63 | the background becomes the lower-cased argument |
| `Creator.Drama.SetMusic` | script.js:69-71 | the music becomes the lower-cased argument |
| `Creator.Drama.AddDialogue` | script.js:81-89 | the character joins the set; with a current scene, the speech and its emotion are pushed onto that scene, which is the last of the list |
| `Creator.Drama.AddAction` | script.js:96-98 | with a current scene, the action is pushed onto it |
| `Creator.Drama.AddSound` | script.js:104-106 | with a current scene, the sound is pushed onto it |
| `Creator.Drama.AddPause` | script.js:112-118 | with a current scene, a pause entry whose duration is `PauseDuration(arg)` is pushed onto its dialogues |
| `Creator.Drama.SealedScenes` | script.js:83-84 | a change to the current scene alone changes only the last scene of the drama |
| `Creator.Drama.ProcessLine` | script.js:40-120 | one iteration keeps the current scene null or the last scene, and changes the drama's contents as `Step` does |
| `Creator.UrduDramaCreator.constructor` | script.js:3-4 | there is no current drama yet |
| `Creator.UrduDramaCreator.CreateDrama` | script.js:26-129 | the returned drama is new; its contents are `Parse` of the script; it becomes the creator's current drama |

## Left out

- Playback (`playDrama`, `pauseDrama`, `stopDrama`, `sleep`, `speakUrdu`): asynchronous timers, the Web Speech API and a flag flipped by other event handlers. This is cooperative concurrency and foreign calls.
- Presentation (`displayDramaPreview`, `showCharacterSpeaking`, `showLoading`, `updateStatus`, the text-area listener, and the calls at script.js:123-127): DOM output only.
- `translateToUrdu`: a substitution table applied with JavaScript regular expressions, outside the parser.
- `downloadDrama`: JSON serialisation, browser Blob and URL objects, the clock and a timer.
- The `try/catch` of `createDrama` (script.js:131-135): with the model's total operations no step can throw, so the error path, which returns `null`, is not modelled.
- The creator's other fields (`isPlaying`, `currentLine`, `characters`, `backgrounds`, the music table), which the parser does not use.
- `Strings.Upper`, `Strings.Lower`: case folding covers ASCII letters only. JavaScript's `toUpperCase` also maps some non-ASCII letters onto ASCII ones (`ſ` to `S`, `ı` to `I`, `ﬁ` to `FI`), while the `/i` flag of the directive pattern, outside Unicode mode, does not. So for the line `[ſCENE: x] A: b` the source takes the scene branch at script.js:45, the pattern at script.js:46 fails, and the line is ignored; the model finds no scene tag and makes the line dialogue in which `[ſCENE` says `x] A: b`. For lines whose only letters are ASCII the two agree. `toLowerCase` yields ASCII from non-ASCII only for the Kelvin sign (to `k`) and `İ` (to `i` plus a combining dot). No marker of `detectEmotion` holds a `k`, and in each marker every `i` is followed by an ASCII letter, so neither can complete a marker. The glyph markers, however, hold Latin-1 lower-case letters (`ü`, `ò`, `ä`, `ù`), which the model does not fold onto: for a dialogue of U+F8FF followed by `ÜÒÄ`, the source's `toLowerCase` (script.js:140) yields the happy glyph and `detectEmotion` returns happy (script.js:141), while the model's `Lower` keeps the capitals and `DetectEmotion` does not return `Happy`.
- Strings are sequences of Unicode scalar values, Dafny's `char`, where JavaScript strings are UTF-16 code units. A character outside the Basic Multilingual Plane is one `char` here and two code units there, and a lone surrogate cannot be written at all. No modelled operation depends on this: every tag, separator, white-space character and marker the parser tests for is a Basic Multilingual Plane character outside the surrogate range. The emoji markers of `detectEmotion` are taken as the code points the source file holds, as opaque constants.
- The drama's `characters` is a `set<string>`, which drops the insertion order of the JavaScript `Set`. That order is read only outside the parser, by `displayDramaPreview` (script.js:160-163) and `showCharacterSpeaking` (script.js:209-213).
- `Directives.ParseInt` keeps values exact. JavaScript rounds values beyond 2^53 to a double.
- Behaviour a reader might not expect, modelled as the code does it:
  - A line `[PAUSE: 3]` is dialogue, not a pause event.
  - A pause length keeps negative values, reads a `0x` prefix as base 16 and turns 0 into 2.
  - The character set also holds the speakers of lines read before the first scene, which no scene stores.
