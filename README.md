# TiddlerInFilePlugin in Dafny

A model of TiddlerInFilePlugin, a TiddlyWiki (Classic) plugin that keeps
chosen tiddlers in external files beside the wiki document. The
`<<external>>` macro, written into the `ExternalTiddlersList` tiddler,
registers a tiddler name with an optional file path, format, `plugin` flag
and `keepInternal` flag. On startup every registered tiddler's file is
requested. The tiddler enters the store only when the response status
counts as a success and the registration's format is known. Whenever the
wiki is saved, each registration whose tiddler exists is written back to its
file, unless its path is not a local one: remote files are skipped.
Deleting a tiddler clears the cached copy on the first registration of that
name only. A second registration of the same name keeps its cached tiddler,
so the next save still writes the deleted tiddler's text to its file.

The project has six modules:

- `Wrappers` (wrappers.dfy): the `Option` type.
- `Host` (host.dfy): the host wiki's objects the plugin works on.
  - `Tiddler` is a class, because the plugin mutates tiddlers in place and
    compares them by identity.
  - `Store` is a class holding a map from title to tiddler, plus a count of
    the host's own saves.
  - `PushUnique` is the host's array helper.
- `Paths` (paths.dfy): `getFullPath`, `isAbsolutePath` and
  `isLocalAbsolutePath` as pure string functions. The document's location is
  an explicit parameter.
- `Formats` (formats.dfy): the `fileFormats` registry, which here holds only
  the `text` format.
- `Registry` (registry.dfy): the registration entries ("metas") and the
  first-match lookup over a table of them.
  - A `Meta` is a class: its fields are constant, except the cached
    `tiddler`, which the plugin updates in place.
  - `ParseMeta` is the part of `handler` that builds a meta from the
    already parsed macro parameters.
- `Engine` (engine.dfy): `config.macros.external` as the class `External`.
  - Its field `tiddlersMeta` is the registration table.
  - Its methods follow the plugin's functions one by one.
  - `SaveChanges` and `DeleteTiddler` are the two wrappers the plugin installs
    around the host's own `saveChanges` and `store.deleteTiddler`.

JavaScript's `undefined` and `null` become `Option.None` or a `null`
reference. Where the plugin goes on with an `undefined`, the model keeps
that visible:

- For an unknown format, `getExtension` gives `undefined`. String
  concatenation turns it into the text "undefined". Where `getFullPath`
  appends an extension (the file name is empty or has no '.'), the resolved
  path therefore ends in `.undefined`; a file name that already has a '.' is
  kept as it is (`ExtensionText`, `MetaFileName`).
- For an unknown format, `externalizeTiddler` gives `undefined`. That value
  is what `saveFile` receives as the content (`FileWrite.content == None`).
- `saveExternal` returns nothing. `saveAll` therefore computes
  `undefined && overallSuccess`, so its result is true exactly when no meta
  reached `saveExternal`. The comment at TiddlerInFilePlugin.js:205 notes
  that the write is assumed not to fail; `saveExternal` still returns
  `undefined`.

File writes are returned as a log with one slot per registered meta: the
file written for it (the full path and the content), or `None`.

## Model

| member | source | states |
|---|---|---|
| Host.Tiddler.constructor | TiddlerInFilePlugin.js:87-88 | `new Tiddler(title)` has that title, empty text and tags, and no creator or modifier |
| Host.PushUnique | TiddlerInFilePlugin.js:176 | the tag is present afterwards; an existing tag leaves the list as it is; a missing tag is appended exactly once |
| Host.Store.FetchTiddler | TiddlerInFilePlugin.js:87 | finds a tiddler exactly when its title is in the store, and returns the one filed under that title |
| Host.Store.AddTiddler | TiddlerInFilePlugin.js:172 | the tiddler is filed under its own title, replacing whatever was there; nothing else changes |
| Host.Store.DeleteTiddler | TiddlerInFilePlugin.js:279 | the host's own delete removes exactly that title |
| Host.Store.SaveChanges | TiddlerInFilePlugin.js:268 | the host's own save persists the document and leaves the tiddlers as they are |
| Formats.Format.Extension | TiddlerInFilePlugin.js:44 | the extension is non-empty, has no leading '.' and no '/' (`txt`) |
| Formats.Format.Externalize | TiddlerInFilePlugin.js:45 | the `text` format's file content is the tiddler's text; the round trips are stated by `Internalize` (externalizing an internalized tiddler gives the source back) and `SaveThenLoad` (internalizing the externalized text gives the tiddler back) |
| Formats.Format.Internalize | TiddlerInFilePlugin.js:46-49 | internalizing changes only the text, and externalizing the result gives the source back |
| Formats.Format.InternalizeInto | TiddlerInFilePlugin.js:47-49 | the in-place internalize leaves the tiddler object holding `Internalize` of its old value |
| Formats.FileFormats | TiddlerInFilePlugin.js:42-50 | a format is registered exactly under the name `text` |
| Paths.FileNameStart | TiddlerInFilePlugin.js:247 | `lastIndexOf('/') + 1`: no '/' after the index, and a '/' (or the start) just before it |
| Paths.FileNameStartUnique | TiddlerInFilePlugin.js:247 | those two conditions pin down the index uniquely |
| Paths.FileNameStartAppend | TiddlerInFilePlugin.js:249-252 | appending text without '/' does not move the last '/' |
| Paths.FileNameAppend | TiddlerInFilePlugin.js:249-252 | appending text without '/' keeps the directory part and extends the file name by that text |
| Paths.FileNameStartBehind | TiddlerInFilePlugin.js:256-258 | behind the base folder, the last '/' is found in the relative part |
| Paths.CompletePath | TiddlerInFilePlugin.js:247-252 | the completion step of `getFullPath`: a file name without '.' gets '.' and the extension, a path with no file name gets the fallback name, '.' and the extension, and a file name with a '.' is kept; its cases are stated by `CompletionCases`, and `CompletedFileName` and `CompletionIdempotent` show it only appends and is idempotent |
| Paths.CompletionCases | TiddlerInFilePlugin.js:249-252 | the three completion cases: an empty file name gets the fallback name, '.' and the extension; a name without '.' gets '.' and the extension; a name with '.' is kept |
| Paths.CompletedFileName | TiddlerInFilePlugin.js:247-252 | completion only appends: the original path is a prefix; a named file keeps its directory part and gets '.' and the extension unless it has a '.' (one in a folder name does not count); a path with no file name gets the last segment of the fallback name, so a '/' in the tiddler name makes a sub-folder; the completed name always holds a '.' |
| Paths.CompletionIdempotent | TiddlerInFilePlugin.js:249-252 | completing an already completed path changes nothing |
| Paths.WordRun | TiddlerInFilePlugin.js:237 | the longest prefix of `\w` characters |
| Paths.WordRunUnique | TiddlerInFilePlugin.js:237 | that prefix length is the only one with word characters before it and none at it |
| Paths.IsAbsolutePath | TiddlerInFilePlugin.js:235-241 | a path is absolute when `^\w+:` or `^\/` matches; `AbsolutePathIsRegex` proves the word-run reading equal to the literal regex, and `AbsolutePathExamples` shows sample paths |
| Paths.AbsolutePathIsRegex | TiddlerInFilePlugin.js:235-241 | `isAbsolutePath` holds exactly when `^\w+:` matches or the path starts with '/' |
| Paths.IsLocalAbsolutePath | TiddlerInFilePlugin.js:242-245 | a path is local when `^\w:`, `^\/` or `^file:` matches; `LocalAbsoluteIsAbsolute` proves every local path absolute, and `LocalAbsolutePathExamples` shows sample paths |
| Paths.LocalAbsoluteIsAbsolute | TiddlerInFilePlugin.js:235-245 | every path that `isLocalAbsolutePath` accepts is also absolute |
| Paths.Base | TiddlerInFilePlugin.js:256-257 | the base is a prefix of the location, ends in '/' (or is empty), and the rest of the location holds no '/' |
| Paths.GetFullPath | TiddlerInFilePlugin.js:246-259 | complete the file name, return an absolute path as it is and prefix a relative one with the document's folder; stated by `FullPathResolution` |
| Paths.FullPathResolution | TiddlerInFilePlugin.js:246-259 | an absolute completed path is returned unchanged, a relative one gets the base prefix, and either way the file name is the completed one |
| Paths.AbsolutePathExamples | TiddlerInFilePlugin.js:235-241 | `http://x`, `C:\x` and `/x` are absolute; `rel/x` is not |
| Paths.LocalAbsolutePathExamples | TiddlerInFilePlugin.js:242-245 | `C:\x`, `/x` and `file:///x` are local absolute; `http://x` and `rel/x` are not |
| Paths.ResolveEmptySpec | TiddlerInFilePlugin.js:246-259 | with no `file:` the path is the tiddler name plus `.txt` in the document's folder |
| Paths.ResolveBareName | TiddlerInFilePlugin.js:246-259 | `sub/custom` gets `.txt` and the document's folder |
| Paths.ResolveFolderOnly | TiddlerInFilePlugin.js:246-259 | `../logs/` gets the tiddler name as the file name |
| Paths.ResolveDottedFolder | TiddlerInFilePlugin.js:246-259 | in `v1.2/notes` the '.' of the folder does not count as an extension |
| Paths.ResolveAbsoluteWithExtension | TiddlerInFilePlugin.js:246-259 | `/w/MyPlugin.js` is used as it is |
| Registry.ParseMeta | TiddlerInFilePlugin.js:105-121 | nothing is registered without a tiddler name; `fileName` defaults to '' and `fileFormat` to `text`; `keepInTW` holds exactly when `keepInternal` is present, non-empty and not `false` |
| Registry.Registrations | TiddlerInFilePlugin.js:101 | the macro calls register at most one meta each, and every registered meta has a name |
| Registry.Meta.constructor | TiddlerInFilePlugin.js:109-121 | a new meta carries the parsed fields and no cached tiddler |
| Registry.Matches | TiddlerInFilePlugin.js:140-141 | a title key matches by tiddler name, any other key by identity with the cached tiddler; `FirstMatch` and `GetMetaFor` are stated in terms of it |
| Registry.FirstMatch | TiddlerInFilePlugin.js:137-143 | the index found matches the key and no earlier entry does; nothing is found exactly when no entry matches |
| Registry.FirstMatchAppend | TiddlerInFilePlugin.js:133-143 | appending an entry never changes an existing first match, so a later duplicate is found only when no earlier entry matches |
| Registry.FirstMatchByTitle | TiddlerInFilePlugin.js:137-143 | a lookup by title finds the first entry of that name, whatever tiddlers are cached |
| Engine.GetExtension | TiddlerInFilePlugin.js:73-77 | an extension exists exactly for a registered format, and is non-empty with no '/' |
| Engine.FullPath | TiddlerInFilePlugin.js:190 | the path of a meta's file is `getFullPath` of its file name, its tiddler name and its format's extension, the same call as at line 151; its file name is stated by `MetaFileName` |
| Engine.MetaFileName | TiddlerInFilePlugin.js:151 | a meta's file name is its own `file:` name completed with the extension, or the last segment of the tiddler name and the extension (a '/' in the tiddler name makes a sub-folder); an unknown format gives the extension text "undefined" |
| Engine.ExternalizeTiddler | TiddlerInFilePlugin.js:78-82 | the content exists exactly for a registered format, and for `text` it is the tiddler's text |
| Engine.AsPlugin | TiddlerInFilePlugin.js:174-181 | only tags, creator and modifier change; `systemConfig` is in the tags, exactly once if it was at most once before; creator and modifier are filled from the Author slice only when unset |
| Engine.AfterLoad | TiddlerInFilePlugin.js:169-181 | the loaded tiddler holds the file's text, keeps its title, is marked `doNotSave` unless `keepInTW`, and externalizes back to the file's text |
| Engine.WriteFor | TiddlerInFilePlugin.js:189-209 | a file is written exactly when there is a tiddler and the path is local, at that path with the externalized content |
| Engine.SaveThenLoad | TiddlerInFilePlugin.js:43-49 | reading a saved file back into its tiddler leaves the tiddler as it was |
| Engine.LoadThenSave | TiddlerInFilePlugin.js:169-201 | saving a tiddler just loaded from a file writes the file's text back unchanged |
| Engine.LoadSucceeded | TiddlerInFilePlugin.js:161 | a load succeeded when the status is absent under `file:`, in 200..299, or 304; `OnLoadComplete` ties its outcome to this test in both directions |
| Engine.ListConfigured | TiddlerInFilePlugin.js:99-100 | `init` goes on only when the list tiddler exists and has text; `Init` states both branches |
| Engine.External.constructor | TiddlerInFilePlugin.js:96-132 | the engine starts with an empty table and the list name `ExternalTiddlersList` |
| Engine.External.RegisterExternal | TiddlerInFilePlugin.js:133-136 | exactly one entry is appended and the earlier ones are kept |
| Engine.External.Handler | TiddlerInFilePlugin.js:105-121 | without a tiddler name the table is unchanged; otherwise one new meta with the parsed fields and no cached tiddler is appended |
| Engine.External.GetMetaFor | TiddlerInFilePlugin.js:137-143 | the result is the first entry matching the title or the tiddler object, or nothing |
| Engine.External.InternalizeTiddler | TiddlerInFilePlugin.js:83-94 | an unknown format changes nothing; otherwise the store's tiddler of that name (or a new one) gets the source as text and `doNotSave` from `keepInTW`, and is cached on the meta |
| Engine.External.OnExternalTiddlerLoad | TiddlerInFilePlugin.js:169-188 | a failed load changes nothing; a successful one files the tiddler under its name and leaves it as `AfterLoad` describes |
| Engine.External.MakePluginLook | TiddlerInFilePlugin.js:174-181 | the plugin branch leaves the tiddler as `AsPlugin` describes |
| Engine.External.LoadExternal | TiddlerInFilePlugin.js:144-151 | the request goes to the meta's full path |
| Engine.External.OnLoadComplete | TiddlerInFilePlugin.js:160-165 | the load counts as done exactly when the status is absent under `file:`, or in 200..299, or 304; the tiddler is then loaded exactly when the format is known, as by `OnExternalTiddlerLoad`: an existing tiddler of that name is reused, otherwise a fresh one is made, it is filed under the name and cached on the meta, and the host's save count is untouched; a failed load changes nothing |
| Engine.External.Wikify | TiddlerInFilePlugin.js:101 | each macro call in the list runs `handler`: the new metas are the registrations, in order |
| Engine.External.Init | TiddlerInFilePlugin.js:98-104 | without a list tiddler with text nothing happens; otherwise the list's metas are registered and one request per meta goes to its full path |
| Engine.External.LoadAll | TiddlerInFilePlugin.js:103 | one request per registered meta, in table order, to its full path |
| Engine.External.SaveExternal | TiddlerInFilePlugin.js:189-209 | a non-local path writes nothing; a local one writes the externalized tiddler to the full path; the result is falsy |
| Engine.External.SaveEntry | TiddlerInFilePlugin.js:213-227 | a meta without a tiddler takes the store's one; it is skipped if there is none, and otherwise saved |
| Engine.External.SaveAll | TiddlerInFilePlugin.js:210-231 | every meta ends up with its cached tiddler, else the store's one; the file written for each meta is `WriteFor` its path and that tiddler; the result is true exactly when no meta has a tiddler |
| Engine.External.SaveChanges | TiddlerInFilePlugin.js:262-270 | external tiddlers are saved as by `SaveAll`, then the host's own save runs regardless |
| Engine.External.DeleteTiddler | TiddlerInFilePlugin.js:273-281 | only the first meta of that name loses its cached tiddler and is still found by name; the host's delete then runs regardless |

## Left out

- The `externalized` format, deliberately: its conversions call the host's saver and loader and set the DOM's `innerHTML`, which are not part of this model. Its name is therefore not registered here, and a registration with `format:externalized` behaves like one with an unknown format: its path gets `.undefined` where the source would append `.tid.html` (TiddlerInFilePlugin.js:52), that is, where the file name is empty or has no '.', a load of it ends with `NoFormat`, and a save of it writes no content (`FileWrite.content == None`).
- Formats that another plugin adds to `fileFormats`, and names inherited from `Object.prototype` (`fileFormats["toString"]`).
- The `jQuery.ajax` request in `loadExternal`. The model returns the requested path; the completion callback takes the status, the page's protocol and the response text as inputs.
- `eval(tiddler.text)` and `refreshAll()` in the plugin branch of `onExternalTiddlerLoad`.
- `wikify` of the list tiddler. Its effect, running `handler` for each `<<external>>` macro call, takes the parsed macro calls as an input.
- The host helpers `parseParams`, `getParam`, `getFlag`, `getLocalPath`, `saveFile` and `getTiddlerText`. Macro parameters and the Author slice are inputs. `saveFile` becomes the returned log of writes, keyed by the full path before `getLocalPath`.
- The visual feedback of `handler` (DOM output).
- The install guards around the two wrappers (`orig_saveChanges`, `orig_deleteTiddler`): the model is the state after installation.
- `onlyIfDirty` and the other arguments that the `saveChanges` wrapper passes on to the host.
- Renaming a tiddler while it is registered: a tiddler's title is constant here.
- Engine.External.RegisterExternal: requires that the meta object is not yet in the table. `handler`, its only caller, always registers a new object, and the table invariant relies on this; a second registration of the same name is still allowed.
- Engine.External.OnExternalTiddlerLoad: for an unknown format the source hands `undefined` to `store.addTiddler`. The model stops there with the outcome `NoFormat` and says nothing about what the host then does.
- Engine.External.InternalizeTiddler: `doNotSave` is a function returning `!meta.keepInTW` in the source. It is modelled as the boolean it always returns.
- Host.Tiddler.constructor: only the fields the plugin reads or writes are modelled. An empty string stands for an unset (null) creator or modifier, and for a missing Author slice.
