# pdf_linker in Dafny

A verified model of `generate_pdf_links.py`, the single-file program that
walks the current directory tree and collects every file whose name ends in
`.pdf` (in any letter case). It writes an HTML page that links to each one.

The program works in four stages:

- **Output name.** The name comes from the command line. If none is given, it
  is asked for; a blank answer gives `pdf_links.html`. A name that was asked
  for is refused if it contains any of `<>:"/\|?*`.
- **Selection.** With `-i`, the operator is asked about every file found. An
  answer of `n` skips the file. Otherwise a second answer gives its label, and
  a blank answer gives the default label: the base name without its extension.
- **Grouping.** Selected files are grouped by directory in an
  insertion-ordered dictionary. Files directly in the scan root go under the
  key `"."`.
- **Rendering.** The page is a fixed head, then one list per group, then a
  fixed tail. With `-h`, each group gets an `<h2>` heading, except the scan
  root's group. Nothing is written when no file was selected.

The modules follow the stages:

- `Text`: the parts of Python's `str.strip()`, `str.lower()` and `str.endswith()` that the program uses.
- `FileNames`: the name check, the prompted name, `os.path.basename` and `os.path.splitext` on '/'-separated paths, the default label, and the `.pdf` test.
- `Discovery`: the walk of the scan root, given as an input. It yields the qualifying files in walk order, with their group key and relative path.
- `Selection`: the per-file choice. The operator's answers are a script, read from its front.
- `Grouping`: the dictionary, held as a sequence of `(key, entries)` pairs, and its append.
- `Rendering`: the page. It is specified as a sequence of chunks (head, heading, list open, item line, list close, tail), and the text is their concatenation. `Render` builds that text by appending, as the program does.
- `Cli`: the argument loop.
- `PdfLinks`: the whole routine, as a specification function `Generate` and as the methods that carry out its loops.
- `Scenarios`: complete runs over a small directory tree.

## Model

| member | source | states |
|---|---|---|
| Text.Strip | generate_pdf_links.py:20 | `strip()` keeps a slice of its input with only whitespace outside it. The result neither starts nor ends with whitespace, and it is empty exactly when the input is all whitespace. |
| Text.StripIdempotent | generate_pdf_links.py:20 | Stripping a stripped string changes nothing. |
| Text.Lower | generate_pdf_links.py:39 | Lower-casing keeps the length and maps each character through the ASCII lower-case map. |
| FileNames.ValidateFilename | generate_pdf_links.py:7-12 | The loop over the nine forbidden characters returns false exactly when the name contains one of them. Equivalently, every character of the name is allowed. |
| FileNames.PromptedOutputName | generate_pdf_links.py:20-22 | The prompted name is the stripped answer, or `pdf_links.html` when the stripped answer is empty. It is never empty. |
| FileNames.DefaultOutputNameValid | generate_pdf_links.py:21-23 | The default name `pdf_links.html` passes the name check. |
| FileNames.BasenameMeaning | generate_pdf_links.py:16 | The base name is the part after the last '/'. It is a suffix of the path with no '/', and a '/' precedes it unless it is the whole path. A path without '/' is its own base name. |
| FileNames.SplitExtMeaning | generate_pdf_links.py:16 | `splitext` splits the path into a root and an extension that concatenate back to the path. The extension is empty, or it is one '.' followed by neither '.' nor '/'. A non-empty extension follows a non-dot character of the last path component. An empty one means every '.' in that component has only dots before it. |
| FileNames.CleanFileNameNonEmpty | generate_pdf_links.py:15-16 | The default label is empty exactly when the base name is empty. |
| FileNames.IsPdfExactly | generate_pdf_links.py:39 | A name qualifies exactly when it has at least four characters and its last four are '.', then 'p', 'd' and 'f' in either case. |
| FileNames.IsPdfExamples | generate_pdf_links.py:39 | `A.PDF` and `b.Pdf` qualify; `c.pdfx` does not. |
| FileNames.CleanPdfName | generate_pdf_links.py:15-16 | For a qualifying file name, the default label is the name minus its last four characters. The exception is a name with only dots before `.pdf`, which is kept whole. |
| Discovery.GroupKeyIsDotIffRoot | generate_pdf_links.py:44 | The group key is "." exactly for the scan root. Otherwise it is the directory's relative path. |
| Discovery.FoundIn | generate_pdf_links.py:38-44 | Every file found in one directory qualifies and is listed there. It carries that directory's group key and its path relative to the scan root. |
| Discovery.DiscoverCount | generate_pdf_links.py:37-39 | The number of files found equals the number of qualifying names in the walk, duplicates included. |
| Discovery.DiscoverComplete | generate_pdf_links.py:37-44 | Every qualifying file of the walk is found. |
| Discovery.DiscoverSound | generate_pdf_links.py:37-44 | Every file found is a qualifying file of the walk, with its directory's key and its relative path. |
| Selection.IsNoExactly | generate_pdf_links.py:49-50 | An inclusion answer skips the file exactly when it strips to "n" or "N". |
| Selection.DisplayName | generate_pdf_links.py:53-56 | The label is the stripped answer. If that is empty, the label is the default label. |
| Selection.SelectFileMeaning | generate_pdf_links.py:47-58 | Without `-i`, a file is taken under its default label and no answer is read. With `-i`: a "no" skips it and reads one answer; otherwise the next answer gives its label and two answers are read. Running out of answers first ends the selection. |
| Selection.DefaultItems | generate_pdf_links.py:58-61 | Without interaction, the i-th item is the i-th found file, under its key, with its path and its default label. |
| Selection.SelectAllNonInteractive | generate_pdf_links.py:57-61 | Without `-i`, every found file becomes one item, in order, under its key and with its default label, and no answer is read. |
| Selection.SelectAllSound | generate_pdf_links.py:47-61 | Selection invents nothing. Every item has the key and path of a found file, and there are no more items than found files. |
| Selection.SelectAllInOrder | generate_pdf_links.py:37-61 | Whatever the answers, the selected items keep discovery order, and each takes a found file at most once. The items sit at strictly increasing positions of the found files and carry those files' keys and paths. |
| Selection.OutOfInputPersists | generate_pdf_links.py:49-53 | Once answers run out partway through the files, the whole selection has run out. |
| Selection.EnterEverywhereIsDefault | generate_pdf_links.py:49-58 | Pressing Enter at every prompt selects exactly what a run without `-i` selects, using two answers per file. |
| Selection.NoEverywhereSelectsNothing | generate_pdf_links.py:49-52 | Answering "n" for every file selects nothing, using one answer per file. |
| Grouping.Append | generate_pdf_links.py:61 | Appending to the dictionary keeps its keys unique. An existing key's list gains the entry at its end. A new key is added last, with that entry alone. No other group changes. |
| Grouping.AppendNewKey | generate_pdf_links.py:61 | Appending under a new key adds the group `(key, [entry])` after all the others. |
| Grouping.EntriesOfAppend | generate_pdf_links.py:61 | After an append, the list under the appended key has gained the entry, and every other key's list is unchanged. |
| Grouping.KeysOfAppend | generate_pdf_links.py:61 | An append adds the appended key to the keys and no other key. |
| Grouping.GroupAll | generate_pdf_links.py:34-61 | The dictionary built by appending every item in turn has unique keys. |
| Grouping.GroupAllEntries | generate_pdf_links.py:61 | The list under a key is exactly the entries of the items with that key, in item order. |
| Grouping.GroupAllTotal | generate_pdf_links.py:61 | The dictionary holds as many entries as there were items. |
| Grouping.GroupAllKeySet | generate_pdf_links.py:61 | A key is in the dictionary exactly when some item has it. |
| Grouping.KeysAfterAppend | generate_pdf_links.py:61 | An append leaves the key order unchanged for a key already present, and adds a new key after all the others. |
| Grouping.FirstOrderedNew | generate_pdf_links.py:61 | A key seen for the first time, added last, keeps the keys in order of first appearance. |
| Grouping.GroupAllOrdered | generate_pdf_links.py:34-61 | Every group's key appears among the items, and the groups are ordered by the first appearance of their keys. |
| Grouping.GroupAllKeyOrder | generate_pdf_links.py:61 | Of any two groups, the earlier one's key first appears among the items before the later one's. |
| Grouping.GroupAllListsNonEmpty | generate_pdf_links.py:61 | No group's list is empty: a key enters the dictionary only with an entry. |
| Grouping.GroupAllAnyEntries | generate_pdf_links.py:65 | Some list in the dictionary is non-empty exactly when some item was added. |
| Rendering.Render | generate_pdf_links.py:69-100 | The appended text is the concatenation of the page's chunks. It starts with the fixed head and ends with the fixed tail. |
| Rendering.AppendGroups | generate_pdf_links.py:89-96 | The group loop appends each group's text in dictionary order. |
| Rendering.AppendGroup | generate_pdf_links.py:91-96 | One pass of the group loop appends an optional heading, the list opening, one line per entry in order, and the list closing. |
| Rendering.GroupText | generate_pdf_links.py:91-96 | One group's text is an optional heading, then the list opening, its item lines and the list closing. |
| Rendering.DocumentText | generate_pdf_links.py:70-100 | The page text is the head, then the groups' text, then the tail. |
| Rendering.PrefixKind | generate_pdf_links.py:70-87 | The fixed head is neither an item line nor a heading. |
| Rendering.FixedChunkKinds | generate_pdf_links.py:93-100 | The tail and the list opening and closing lines are neither item lines nor headings. |
| Rendering.ItemLineKind | generate_pdf_links.py:95 | An item line counts as an item line and not as a heading. |
| Rendering.HeaderLineKind | generate_pdf_links.py:92 | A heading counts as a heading and not as an item line. |
| Rendering.ItemLinesOfKind | generate_pdf_links.py:94-95 | A group's item lines are all item lines, in entry order, and none is a heading. |
| Rendering.GroupChunksOfKind | generate_pdf_links.py:91-96 | A group's item lines are its entries' lines, in order. It has a heading exactly when headers are on and its key is not ".". |
| Rendering.HeadedKeysExactly | generate_pdf_links.py:91-92 | A key gets a heading exactly when it is in the dictionary, headers are on, and it is not ".". |
| Rendering.RootNeverHeaded | generate_pdf_links.py:91-92 | The scan root's group never gets a heading, and no group gets one when headers are off. |
| Rendering.DocumentChunksOfKind | generate_pdf_links.py:89-96 | The page's item lines are exactly one line per entry, in dictionary order and then entry order. Its headings are exactly those of the headed groups, in dictionary order. |
| Rendering.ParseItemLine | generate_pdf_links.py:95 | An item line can be read back to its entry: the href is the path, and the title and link text are the label. This requires a path without '"'. |
| Rendering.ParseItemSound | generate_pdf_links.py:95 | A line that reads back as an entry is exactly that entry's item line. |
| Cli.Args | generate_pdf_links.py:118 | The scanned arguments are everything after the program name. |
| Cli.ScanArgsFlags | generate_pdf_links.py:118-122 | Each flag is on exactly when it occurs among the arguments. |
| Cli.ScanArgsName | generate_pdf_links.py:118-124 | There is no output name exactly when every argument is a flag; otherwise it is the last argument that is not a flag. |
| Cli.ScanArgsMeaning | generate_pdf_links.py:118-124 | Interactive mode is on exactly when some argument is `-i`, and headers exactly when some argument is `-h`. There is no output name exactly when every argument is a flag; otherwise it is the last argument that is not a flag. |
| Cli.ParseArgs | generate_pdf_links.py:113-124 | The argument loop computes the scan of the arguments, with the flag and name properties above. |
| Cli.FlagsAnywhere | generate_pdf_links.py:118-124 | Flags count wherever they appear and may repeat, and a later name replaces an earlier one. |
| PdfLinks.AskOutputName | generate_pdf_links.py:19-25 | The output-name step settles the name as `ResolveOutputName` does. A non-empty command-line name is kept and reads no answer. Otherwise the first answer is taken, and a name with a forbidden character is refused. |
| PdfLinks.AskAboutFile | generate_pdf_links.py:47-58 | The per-file prompts make the choice that `SelectFile` specifies. |
| PdfLinks.CollectFile | generate_pdf_links.py:38-62 | One file of one directory: a qualifying file is asked about and, when selected, appended under its directory's key. The dictionary stays the grouping of the items selected so far, or the run has run out of answers. |
| PdfLinks.CollectFromDirectory | generate_pdf_links.py:37-62 | The files of one directory, in order, extend the selection and the dictionary from the directories before it, or the run has run out of answers. |
| PdfLinks.CollectLinks | generate_pdf_links.py:34-61 | The walk loop reports that answers ran out exactly when selection over all found files runs out. Otherwise it returns the dictionary built from the selected items. |
| PdfLinks.GenerateNamed | generate_pdf_links.py:34-100 | Once a name is settled, the run is never refused for its name, and a written page goes under that name. |
| PdfLinks.GenerateHtmlWithPdfLinks | generate_pdf_links.py:5-100 | The routine ends as `Generate` specifies: a refused name, answers that ran out, nothing to write, or the page with the name it is written under. |
| PdfLinks.Run | generate_pdf_links.py:111-126 | The entry point behaves as `Program`: scan the arguments, then run the generator. |
| PdfLinks.CommandLineNameUnchecked | generate_pdf_links.py:19-25 | A non-empty command-line name is used unchecked and reads no answer. The run is never refused for its name, and a written page goes under that name. |
| PdfLinks.CommandLineNameExample | generate_pdf_links.py:19-25 | `out/links.html` fails the name check but is accepted from the command line. |
| PdfLinks.PromptedName | generate_pdf_links.py:19-25 | When the name must be asked for, the run is refused exactly when the prompted name has a forbidden character. With no answer left it ends for lack of input, and a blank answer gives the default name. |
| PdfLinks.NonInteractiveRun | generate_pdf_links.py:37-100 | Without `-i`, a page is written exactly when the walk has a qualifying file. Its items are every found file under its default label, one item line per qualifying file. |
| PdfLinks.RenderedWhenSelected | generate_pdf_links.py:65-100 | Nothing is written exactly when no file was selected. Otherwise the page has one item line per selected file, grouped by key, and headings only for the headed groups, never for ".". |
| Scenarios.TwoDirDiscover | generate_pdf_links.py:37-44 | A walk with a qualifying file in the root, a non-qualifying one, and a qualifying one in a sub-directory finds the two qualifying files. They are found in walk order, with keys "." and the sub-directory's path. |
| Scenarios.TwoDirGroups | generate_pdf_links.py:61 | Two items under different keys make two one-entry groups, in item order. |
| Scenarios.HeadedRun | generate_pdf_links.py:113-126 | `prog -h NAME` over that tree writes, under NAME, the head, the root's list without a heading, the sub-directory's heading and list, and the tail. |
| Scenarios.TakeSecond | generate_pdf_links.py:47-61 | After the first file was skipped, taking the second gives a one-item selection. |
| Scenarios.SkipThenTake | generate_pdf_links.py:47-61 | Answering "no" for the first file, then a non-"no" and a label for the second, selects only the second file, under that label. |
| Scenarios.InteractiveRun | generate_pdf_links.py:113-126 | `prog -i NAME` with those answers writes a page that links only the second file, under the given label and with no heading. |

## Left out

- The directory walk (`os.walk` from `os.getcwd()`) is an input: a sequence of directories, each with its file names, in the order the walk yields them. Walk order, symbolic links and traversal errors are the operating system's concern.
- `os.path.relpath`, `os.path.join` and `os.path.normpath` are not modelled as path libraries. Each directory arrives already relative to the scan root, and a file's relative path is the directory's path, a '/' and the name. `PdfLinks.GenerateHtmlWithPdfLinks`: the `Written` name is the name before `os.path.normpath` is applied.
- Windows path semantics (both '/' and '\' as separators, drive letters) are not modelled. `FileNames.Basename` and `FileNames.SplitExt` follow POSIX `os.path`.
- Console I/O: each `input()` is the next string of a script of answers, and every `print()` message is dropped. When an answer is needed and the script is empty, the run ends as `InputExhausted`, where Python raises `EOFError` and writes nothing.
- Writing the file and the exception handler around it are left out. A `Written` outcome is what would be written, and under which name.
- `Text.Lower` maps only ASCII letters. Python lower-cases all of Unicode, but the program compares the lower-cased text only with ".pdf" and "n". Non-ASCII characters cannot match those in either model, so the results agree.
- Neither the program nor the model escapes HTML. `Rendering.ParseItemLine` holds only for paths without '"', since such a character ends the `href` attribute early.
