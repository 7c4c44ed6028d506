# Window theme resolution of EmulationStation, modelled in Dafny

This project models the window-theme layer of EmulationStation
(`es-core/src/WindowThemeData.cpp`). That layer reads theme description
files and keeps a registry of named themes with one active theme. A
rendering layer reads the active theme to draw window backgrounds, titles,
footers, buttons, option lists and switches.

Modules, in dependency order:

- `Wrappers`: `Option` stands for null pointers and null XML nodes. `Result` stands for a value or a thrown `ThemeException`.
- `Xml`: an abstract parsed document. A `Node` holds its optional `name` attribute, its text and the first child element for each tag.
- `ColorCodec`: `getHexColor` as `GetHexColor`. A hex writer `ToHex` is its inverse, and round-trip lemmas connect the two.
- `Alignments`: `getAlignment` as `GetAlignment`, with a token writer and a round-trip lemma.
- `Themes`: the style-element and theme records. This module holds the reference definitions of one element read (`ExtractElement`), one theme read (`LoadTheme`) and one file read (`LoadFile`). These definitions are written "errors first": a read fails exactly when the first colour string it decodes, in source order, fails (`FirstColorError`). It also holds the lemmas about presence-guarded fields, the always-written alignment and the option-list seeding.
- `ThemeLoader`: the step-by-step readers. `GetElementData` is `getElementData`. `ReadTheme`, `ReadRegions` and `ReadOptionListOnward` are the record-filling part of `parseFile`. Each is proved equal to its reference definition.
- `StringOrder`: the key order of a `std::map<std::string, …>`, and the existence of a least key.
- `Registry`: the class `WindowThemeData` with the fields `themeMap` (`mThemeMap`) and `current` (the key that `mCurrentTheme` points at). The class has `GenerateDefault`, `ParseFile`, `SetTheme` and `GetThemeNames`. `LoadInto` and `LoadAll` specify what loading a directory does to the map. `Create` is the constructor's start-up sequence.

Inputs that the source takes from its environment are parameters here:

- The theme directory's contents are a `seq<Option<Node>>`. `None` is a path that does not exist.
- The configured `WindowTheme` setting is a `string`.

In three places the model follows the code's actual behaviour rather than what it might be expected to do:

- `getHexColor("")` throws the bad-length error, not "Empty color". `as_string()` never returns null, so "Empty color" is thrown only for a null pointer (`GetHexColor(None)`).
- A colour error is not caught by `parseFile` or by the constructor's loop. It therefore ends the whole start-up (`Create` returns `Failure`) instead of skipping one file.
- `getThemeNames` returns the keys in the map's iteration order. Taking `mThemeMap` to be a `std::map<std::string, WindowTheme>` (an assumption, see "## Left out"), that order is ascending, and the model states and proves it.

## Model

| member | source | states |
|---|---|---|
| ColorCodec.GetHexColor | es-core/src/WindowThemeData.cpp:44-63 | Null is EmptyColor. A length other than 6 or 8 (the empty string too) is BadLength naming the string. Success exactly for 6 or 8 hex digits. Six digits: the value moves up one byte and the low byte is 0xFF. Eight digits: the value as parsed. The result fits 32 bits. |
| ColorCodec.DecodeExamples | es-core/src/WindowThemeData.cpp:47-62 | "FF0000" is 0xFF0000FF, "FF0000AA" is 0xFF0000AA, "" and "ABC" are BadLength, null is EmptyColor. |
| ColorCodec.DecodeEncodedRgba | es-core/src/WindowThemeData.cpp:54-62 | Every 32-bit value written as eight hex digits decodes back to itself. |
| ColorCodec.DecodeEncodedRgb | es-core/src/WindowThemeData.cpp:59-60 | Every 24-bit RGB written as six digits decodes to that RGB shifted up a byte with alpha 0xFF. |
| ColorCodec.RgbIsRgbaWithOpaqueAlpha | es-core/src/WindowThemeData.cpp:59-60 | A six-digit colour decodes to the same value as that colour with "FF" appended. |
| ColorCodec.HexRoundTrip | es-core/src/WindowThemeData.cpp:54-57 | Parsing the n-digit hex text of v gives v. |
| Alignments.GetAlignment | es-core/src/WindowThemeData.cpp:189-194 | Left exactly for "left", Right exactly for "right", Center for every other string. |
| Alignments.TokenRoundTrip | es-core/src/WindowThemeData.cpp:189-194 | Every alignment's token resolves back to it. |
| Alignments.AlignmentExamples | es-core/src/WindowThemeData.cpp:189-194 | The match is case-sensitive: "RIGHT", "Left" and "" give Center. |
| Themes.FirstColorError | es-core/src/WindowThemeData.cpp:198-199 | None exactly when every colour text decodes. Otherwise it is the error of the first text that fails, all texts before it decoding. |
| Themes.FirstColorErrorAppend | es-core/src/WindowThemeData.cpp:116-164 | Across consecutive decodes, the first part's error wins, else the second part's. |
| Themes.ElementFieldsArePresenceGuarded | es-core/src/WindowThemeData.cpp:197-202 | After an element read, each of color, color_focused, path, path_focused and path_selected is unchanged when its child is absent. A present color or color_focused child gives the decoded colour; a present path, path_focused or path_selected child gives its text. |
| Themes.AlignmentIgnoresPrior | es-core/src/WindowThemeData.cpp:203-204 | Alignment is always overwritten: its value does not depend on the element before the read, and is Center without an alignment child. |
| Themes.ExtractIdempotent | es-core/src/WindowThemeData.cpp:197-204 | Reading the same node into an element twice gives the same element as reading it once. |
| Themes.OptionListInheritsDefaultText | es-core/src/WindowThemeData.cpp:156-160 | option_list.color equals default_text.color unless option_list has a color child, whose decoded value then wins. |
| Themes.LoadedThemeIsNamedByRoot | es-core/src/WindowThemeData.cpp:108-113 | A loaded theme carries the root's name attribute as its name. |
| Themes.UnnamedFilesAreSkipped | es-core/src/WindowThemeData.cpp:89-111 | A missing file, a document without a WindowTheme root and a root without a name attribute are all skipped. |
| Themes.NamedFileOutcome | es-core/src/WindowThemeData.cpp:113-168 | A named root loads a theme exactly when every colour text it decodes is valid. |
| ThemeLoader.GetElementData | es-core/src/WindowThemeData.cpp:197-205 | The field-by-field update equals the reference element read. This includes the error of the first bad colour. |
| ThemeLoader.ReadRegion | es-core/src/WindowThemeData.cpp:141-142 | An absent region keeps its prior element. A present one is read, failing exactly on a bad colour. |
| ThemeLoader.ReadRegions | es-core/src/WindowThemeData.cpp:139-164 | The six regions are read in source order, the option list starting from the default text colour. The read fails with the first bad colour among them. |
| ThemeLoader.ReadOptionListOnward | es-core/src/WindowThemeData.cpp:156-164 | The option list is read from an element seeded with the default text colour, then the switch; the read fails with the first bad colour among them. |
| ThemeLoader.ReadTheme | es-core/src/WindowThemeData.cpp:104-165 | Filling the local theme step by step equals the reference theme read, errors included. |
| Registry.LoadInto | es-core/src/WindowThemeData.cpp:168 | A skipped file leaves the map alone. A loaded theme is stored under its name, overwriting; no other key changes. A colour error is passed on. |
| Registry.LoadAll | es-core/src/WindowThemeData.cpp:33-35 | Loading succeeds exactly when every file's read succeeds. Otherwise it fails with the error of the first failing file. |
| Registry.LoadAllKeys | es-core/src/WindowThemeData.cpp:33-35 | After loading, the keys are the old keys plus the names of the loaded themes. |
| Registry.LoadAllKeepsOthers | es-core/src/WindowThemeData.cpp:168 | A key that no file loads keeps its old entry. |
| Registry.LoadAllKeepsNames | es-core/src/WindowThemeData.cpp:113-168 | Loading keeps every theme stored under its own name. |
| Registry.LastWins | es-core/src/WindowThemeData.cpp:168 | The stored theme for a name is that of the last file loading that name. |
| Registry.LoadAllStopsAt | es-core/src/WindowThemeData.cpp:33-35 | A failure among the first files is the failure of the whole load. |
| Registry.DefaultSurvivesLoading | es-core/src/WindowThemeData.cpp:27-40 | Whatever the directory holds, "default" stays selectable after loading. |
| Registry.DefaultThemeSelectable | es-core/src/WindowThemeData.cpp:172-186 | After seeding, "default" is selectable with background 0x444444FF, title 0x999999FF/Center, and the option list in the default text colour. |
| Registry.WindowThemeData.ActiveTheme | es-core/src/WindowThemeData.cpp:81 | The active theme is the entry under the current key, and it carries that key as its name. |
| Registry.WindowThemeData.GenerateDefault | es-core/src/WindowThemeData.cpp:172-186 | The built-in theme is stored under "default"; nothing else changes. |
| Registry.WindowThemeData.ParseFile | es-core/src/WindowThemeData.cpp:89-169 | Returns false for a skipped file and true for a loaded one, and throws a colour error. The map becomes the reference load of that file, and is unchanged on an error. |
| Registry.WindowThemeData.SetTheme | es-core/src/WindowThemeData.cpp:77-86 | Succeeds exactly when an entry with a non-empty name is under the key, then makes it active. Otherwise the active theme is unchanged. The map never changes and the registry invariant is kept. |
| Registry.WindowThemeData.SetThemeAsWritten | es-core/src/WindowThemeData.cpp:77-86 | Same result as SetTheme, but an unknown key gets an empty theme inserted. That breaks "every theme is under its own name". |
| Registry.WindowThemeData.GetThemeNames | es-core/src/WindowThemeData.cpp:66-74 | Exactly the map keys, each once, in ascending order. |
| Registry.Create | es-core/src/WindowThemeData.cpp:27-40 | Seeds the default, loads every file, then selects the configured theme, or "default" when that is not selectable. The end state satisfies the registry invariant. A colour error fails the whole start-up. |
| Registry.UnknownNameListedAsWritten | es-core/src/WindowThemeData.cpp:78 | With the inserting lookup, a failed setTheme("retro") leaves "retro" among the theme names. |
| Registry.UnknownNameNotListed | es-core/src/WindowThemeData.cpp:78 | With the non-inserting lookup, the names stay exactly ["default"]. |
| Registry.RetroFileLoads | es-core/src/WindowThemeData.cpp:113-142 | A file naming theme "retro" with background colour 112233 loads a theme "retro" with background 0x112233FF. |
| Registry.RetroLoads | es-core/src/WindowThemeData.cpp:27-40 | Loading a directory holding only that file succeeds, "retro" becomes selectable, and its background is 0x112233FF. |
| Registry.RetroStartup | es-core/src/WindowThemeData.cpp:27-40 | Start-up with that file and "retro" configured makes "retro" active, with background 0x112233FF. |

## Findings

| source | as written | input that shows it | evidently intended | confidence | as-written member | corrected member |
|---|---|---|---|---|---|---|
| es-core/src/WindowThemeData.cpp:78 | `mThemeMap[name]` uses the map's `operator[]` (of `std::map`, as assumed under "## Left out"; `std::unordered_map` behaves the same), which inserts an empty theme under an unknown name before the name test | `setTheme("retro")` on a registry that holds only "default": returns false but `getThemeNames()` now lists "retro" | a lookup that leaves the map unchanged, so that a failed selection changes nothing | high; not executed | Registry.UnknownNameListedAsWritten | Registry.WindowThemeData.SetTheme |

`Create` uses the corrected `SetTheme`. With the code as written, start-up with an unknown configured name leaves that name in the map as an empty, unselectable entry.

## Left out

- The filesystem: `fs::exists` and the directory iteration over `~/.emulationstation/WindowThemes` become the `files` parameter. The order of `directory_iterator` is not specified, so the model takes the sequence in the order given.
- The pugixml parser, its parse errors and the "Missing <WindowTheme> tag" path are out, because they only log and go on. A missing root still ends the read at the name check, as in the source.
- The `LOG` calls, the lazy singleton `getInstance`, and `Settings::getInstance()`, whose `WindowTheme` value is the `configured` parameter.
- ColorCodec.GetHexColor: a string of the right length that contains a non-hex character is rejected with `NotHex`. The source's `std::stringstream >> std::hex` partial parse is not modelled. That parse also accepts a "0x" prefix, a sign and leading whitespace, and stops quietly at the first non-hex character.
- Registry.WindowThemeData.ParseFile: the source falls off the end of `parseFile` without a return value on success. The model returns true.
- The `mCurrentTheme == NULL` test at line 83 is left out, because a map element's address is never null.
- WindowThemeData.h is not part of this model. The field defaults are therefore assumed: optional fields unset, alignment Center, empty name. `mThemeMap` is assumed to be a `std::map<std::string, WindowTheme>`, so both the ascending key order that `GetThemeNames` promises and the inserting `operator[]` that `SetThemeAsWritten` models are assumptions about that declaration.
- A missing or unreadable theme directory is not modelled. In the source, the throwing `directory_iterator` constructor (line 33) raises `filesystem_error` out of the constructor, so start-up fails rather than being tolerated. The claims that `Create` fails only on a bad colour and that `DefaultSurvivesLoading` holds whatever the directory holds apply to a directory that can be listed.
- ColorCodec.GetHexColor: lengths are counted in characters, while `strlen` counts bytes. The two differ only for non-ASCII text: "ÄFFFFFF" is 8 bytes but 7 characters, so the model gives BadLength where the source goes on to parse.
- Registry.Create: uses the corrected `SetTheme` (see Findings), so it does not reproduce the placeholder entry that an unknown configured name leaves behind.
- Thread safety: there is none in the source, and nothing is modelled.
- The renderer, font, texture and sound includes, and `src/SystemData.h`: nothing in them takes part in theme resolution.
