/**
 * The program as a whole: settle the output name, walk the scan root and
 * group the selected files by directory, then render the page, or stop with
 * the reason there is nothing to write. The directory walk and the operator's
 * answers are inputs; the written file is the `Written` outcome.
 */
module PdfLinks {
  import opened Wrappers
  import opened Text
  import opened FileNames
  import opened Discovery
  import opened Selection
  import opened Grouping
  import opened Rendering
  import opened Cli

  /** How a run ends. */
  datatype Outcome =
    | InvalidOutputName                        // the prompted name was refused; nothing is written
    | InputExhausted                           // an answer was asked for and none was left
    | NothingToGenerate                        // no file was found or selected
    | Written(fileName: string, html: string)  // the page and the name it is written under

  /** The output name once settled, with the answers still unread. */
  datatype NameChoice = Refused | Unanswered | Named(name: string, rest: seq<string>)

  /**
   * A non-empty name from the command line is used as given; otherwise the
   * first answer is the prompted name, which must pass the character check.
   */
  function ResolveOutputName(outputName: Option<string>, script: seq<string>): NameChoice
  {
    if outputName.Some? && outputName.value != "" then Named(outputName.value, script)
    else if script == [] then Unanswered
    else
      var name := PromptedOutputName(script[0]);
      if ValidFileName(name) then Named(name, script[1..]) else Refused
  }

  /**
   * The run once the output name is settled: select among the found files
   * with the answers left, then write the page when some file was selected.
   * Whatever happens, the settled name is the one written to.
   */
  function GenerateNamed(name: string, interactive: bool, useHeaders: bool,
                         walk: seq<WalkStep>, rest: seq<string>): (outcome: Outcome)
    ensures outcome != InvalidOutputName
    ensures outcome.Written? ==> outcome.fileName == name
  {
    match SelectAll(Discover(walk), interactive, rest)
    case OutOfInput => InputExhausted
    case Selected(items, _) =>
      var groups := GroupAll(items);
      if !AnyEntries(groups) then NothingToGenerate
      else Written(name, Concat(DocumentChunks(groups, useHeaders)))
  }

  /** What one run of the generator does, given the walk of the scan root and the answers. */
  function Generate(outputName: Option<string>, interactive: bool, useHeaders: bool,
                    walk: seq<WalkStep>, script: seq<string>): Outcome
  {
    match ResolveOutputName(outputName, script)
    case Refused => InvalidOutputName
    case Unanswered => InputExhausted
    case Named(name, rest) => GenerateNamed(name, interactive, useHeaders, walk, rest)
  }

  /** What the program does when started with `argv`. */
  function Program(argv: seq<string>, walk: seq<WalkStep>, script: seq<string>): Outcome
  {
    var opts := ScanArgs(Args(argv));
    Generate(opts.output, opts.interactive, opts.useHeaders, walk, script)
  }

  /** The found files up to file `j` of directory `i` come first among all found files. */
  lemma {:induction false} FoundInPrefix(d: Dir, files: seq<string>, j: nat)
    requires j <= |files|
    ensures FoundIn(d, files[..j]) <= FoundIn(d, files)
    decreases |files|
  {
    if j < |files| {
      var init := files[..|files| - 1];
      assert init[..j] == files[..j];
      FoundInPrefix(d, init, j);
    } else {
      assert files[..j] == files;
    }
  }

  lemma {:induction false} DiscoverPrefix(walk: seq<WalkStep>, i: nat)
    requires i <= |walk|
    ensures Discover(walk[..i]) <= Discover(walk)
    decreases |walk|
  {
    if i < |walk| {
      var init := walk[..|walk| - 1];
      assert init[..i] == walk[..i];
      DiscoverPrefix(init, i);
    } else {
      assert walk[..i] == walk;
    }
  }

  /** The files found before file `j` of directory `i` are a prefix of all found files. */
  lemma WalkPrefix(walk: seq<WalkStep>, i: nat, j: nat)
    requires i < |walk| && j <= |walk[i].files|
    ensures Discover(walk[..i]) + FoundIn(walk[i].dir, walk[i].files[..j]) <= Discover(walk)
  {
    FoundInPrefix(walk[i].dir, walk[i].files, j);
    assert walk[..i + 1][..i] == walk[..i];
    DiscoverPrefix(walk, i + 1);
  }

  /** The files found before file `j` of directory `i` of the walk. */
  ghost function FoundSoFar(walk: seq<WalkStep>, i: nat, j: nat): seq<Found>
    requires i < |walk| && j <= |walk[i].files|
  {
    Discover(walk[..i]) + FoundIn(walk[i].dir, walk[i].files[..j])
  }

  lemma FoundSoFarNext(walk: seq<WalkStep>, i: nat, j: nat)
    requires i < |walk| && j < |walk[i].files|
    ensures var d, file := walk[i].dir, walk[i].files[j];
            IsPdf(file) ==> FoundSoFar(walk, i, j + 1) == FoundSoFar(walk, i, j) + [Found(GroupKey(d), RelativePath(d, file), file)]
    ensures !IsPdf(walk[i].files[j]) ==> FoundSoFar(walk, i, j + 1) == FoundSoFar(walk, i, j)
  {
    var files := walk[i].files;
    assert files[..j + 1][..j] == files[..j];
    var before := FoundIn(walk[i].dir, files[..j]);
    if IsPdf(files[j]) {
      assert FoundSoFar(walk, i, j + 1) == Discover(walk[..i]) + (before + [Found(GroupKey(walk[i].dir), RelativePath(walk[i].dir, files[j]), files[j])]);
    } else {
      assert FoundIn(walk[i].dir, files[..j + 1]) == before;
    }
  }

  lemma FoundSoFarEnds(walk: seq<WalkStep>, i: nat)
    requires i < |walk|
    ensures FoundSoFar(walk, i, 0) == Discover(walk[..i])
    ensures FoundSoFar(walk, i, |walk[i].files|) == Discover(walk[..i + 1])
  {
    assert walk[i].files[..0] == [];
    assert walk[i].files[..|walk[i].files|] == walk[i].files;
    assert walk[..i + 1][..i] == walk[..i];
  }

  /** Selecting over one more found file: its choice is made on the answers left over. */
  lemma SelectNext(found: seq<Found>, f: Found, interactive: bool, script: seq<string>)
    ensures SelectAll(found + [f], interactive, script) ==
              match SelectAll(found, interactive, script)
              case OutOfInput => OutOfInput
              case Selected(items, rest) =>
                match SelectFile(f, interactive, rest)
                case Exhausted => OutOfInput
                case Skip(rest') => Selected(items, rest')
                case Take(e, rest') => Selected(items + [(f.key, e)], rest')
  {
    assert (found + [f])[..|found|] == found;
    SelectAllSnoc(found + [f], interactive, script);
  }

  /** One selection step, read off the choice made for the next file. */
  lemma ChoiceStep(found: seq<Found>, f: Found, interactive: bool, script: seq<string>,
                   items: seq<(string, Entry)>, answers: seq<string>, choice: Choice)
    requires SelectAll(found, interactive, script) == Selected(items, answers)
    requires choice == SelectFile(f, interactive, answers)
    ensures choice.Exhausted? ==> SelectAll(found + [f], interactive, script) == OutOfInput
    ensures choice.Skip? ==> SelectAll(found + [f], interactive, script) == Selected(items, choice.rest)
    ensures choice.Take? ==>
              SelectAll(found + [f], interactive, script) == Selected(items + [(f.key, choice.entry)], choice.rest)
  {
    SelectNext(found, f, interactive, script);
  }

  lemma GroupAllNext(items: seq<(string, Entry)>, key: string, e: Entry)
    ensures GroupAll(items + [(key, e)]) == Append(GroupAll(items), key, e)
  {
    assert (items + [(key, e)])[..|items|] == items;
  }

  /** Once the answers run out part-way through the walk, the whole run has run out. */
  lemma ExhaustedPartWay(walk: seq<WalkStep>, i: nat, j: nat, interactive: bool, script: seq<string>)
    requires i < |walk| && j <= |walk[i].files|
    requires SelectAll(FoundSoFar(walk, i, j), interactive, script).OutOfInput?
    ensures SelectAll(Discover(walk), interactive, script).OutOfInput?
  {
    var found := FoundSoFar(walk, i, j);
    WalkPrefix(walk, i, j);
    assert Discover(walk)[..|found|] == found;
    OutOfInputPersists(Discover(walk), |found|, interactive, script);
  }

  lemma GenerateAfterName(outputName: Option<string>, interactive: bool, useHeaders: bool,
                          walk: seq<WalkStep>, script: seq<string>, name: string, start: seq<string>)
    requires ResolveOutputName(outputName, script) == Named(name, start)
    ensures SelectAll(Discover(walk), interactive, start).OutOfInput? ==>
              Generate(outputName, interactive, useHeaders, walk, script) == InputExhausted
    ensures SelectAll(Discover(walk), interactive, start).Selected? ==>
              var groups := GroupAll(SelectAll(Discover(walk), interactive, start).items);
              Generate(outputName, interactive, useHeaders, walk, script)
              == if !AnyEntries(groups) then NothingToGenerate
                 else Written(name, Concat(DocumentChunks(groups, useHeaders)))
  {
  }

  /**
   * The output-name step of the generator: a name from the command line is
   * kept; otherwise the first answer, stripped, or the default name when it
   * is blank, and a name with a forbidden character ends the run.
   */
  method AskOutputName(outputName: Option<string>, script: seq<string>) returns (choice: NameChoice)
    ensures choice == ResolveOutputName(outputName, script)
  {
    if outputName == None || outputName.value == "" {
      if script == [] {
        return Unanswered;
      }
      var name := Strip(script[0]);
      if name == "" {
        name := DefaultOutputName;
      }
      var ok := ValidateFilename(name);
      if !ok {
        return Refused;
      }
      return Named(name, script[1..]);
    }
    return Named(outputName.value, script);
  }

  /**
   * The per-file step of the walk: without interaction the file is taken
   * under its default label; with interaction the operator is asked whether
   * to include it and, if so, for its display name.
   */
  method AskAboutFile(f: Found, interactive: bool, answers: seq<string>) returns (choice: Choice)
    ensures choice == SelectFile(f, interactive, answers)
  {
    if !interactive {
      return Take(Entry(f.path, CleanFileName(f.name)), answers);
    }
    if answers == [] {
      return Exhausted;
    }
    var includeFile := Lower(Strip(answers[0]));
    if includeFile == "n" {
      return Skip(answers[1..]);
    }
    if |answers| == 1 {
      return Exhausted;
    }
    var displayName := Strip(answers[1]);
    if displayName == "" {
      displayName := CleanFileName(f.name);
    }
    return Take(Entry(f.path, displayName), answers[2..]);
  }

  /**
   * The per-file step of the walk: a file whose name ends in `.pdf` is asked
   * about and, when selected, appended to the dictionary under its
   * directory's key; any other file is passed over. It reports whether an
   * answer was asked for when none was left.
   */
  method CollectFile(walk: seq<WalkStep>, i: nat, j: nat, interactive: bool, script: seq<string>,
                     grouped0: Groups<string, Entry>, ghost items0: seq<(string, Entry)>,
                     answers0: seq<string>)
    returns (grouped: Groups<string, Entry>, ghost items: seq<(string, Entry)>, answers: seq<string>,
             exhausted: bool)
    requires i < |walk| && j < |walk[i].files|
    requires SelectAll(FoundSoFar(walk, i, j), interactive, script) == Selected(items0, answers0)
    requires grouped0 == GroupAll(items0)
    ensures exhausted ==> SelectAll(Discover(walk), interactive, script).OutOfInput?
    ensures !exhausted ==> SelectAll(FoundSoFar(walk, i, j + 1), interactive, script) == Selected(items, answers)
    ensures !exhausted ==> grouped == GroupAll(items)
  {
    grouped, items, answers, exhausted := grouped0, items0, answers0, false;
    var dir, file := walk[i].dir, walk[i].files[j];
    FoundSoFarNext(walk, i, j);
    if IsPdf(file) {
      var relativePath := RelativePath(dir, file);
      var subfolder := GroupKey(dir);
      var f := Found(subfolder, relativePath, file);
      var choice := AskAboutFile(f, interactive, answers);
      ChoiceStep(FoundSoFar(walk, i, j), f, interactive, script, items, answers, choice);
      match choice {
        case Exhausted =>
          ExhaustedPartWay(walk, i, j + 1, interactive, script);
          exhausted := true;
        case Skip(rest) =>
          answers := rest;
        case Take(entry, rest) =>
          grouped := Append(grouped, subfolder, entry);
          GroupAllNext(items, subfolder, entry);
          items := items + [(subfolder, entry)];
          answers := rest;
      }
    }
  }

  /**
   * The per-directory step of the walk: visits the files of directory `i` in
   * order. It reports whether an answer was asked for when none was left.
   */
  method CollectFromDirectory(walk: seq<WalkStep>, i: nat, interactive: bool, script: seq<string>,
                              grouped0: Groups<string, Entry>, ghost items0: seq<(string, Entry)>,
                              answers0: seq<string>)
    returns (grouped: Groups<string, Entry>, ghost items: seq<(string, Entry)>, answers: seq<string>,
             exhausted: bool)
    requires i < |walk|
    requires SelectAll(Discover(walk[..i]), interactive, script) == Selected(items0, answers0)
    requires grouped0 == GroupAll(items0)
    ensures exhausted ==> SelectAll(Discover(walk), interactive, script).OutOfInput?
    ensures !exhausted ==> SelectAll(Discover(walk[..i + 1]), interactive, script) == Selected(items, answers)
    ensures !exhausted ==> grouped == GroupAll(items)
  {
    grouped, items, answers := grouped0, items0, answers0;
    FoundSoFarEnds(walk, i);
    var j := 0;
    while j < |walk[i].files|
      invariant 0 <= j <= |walk[i].files|
      invariant SelectAll(FoundSoFar(walk, i, j), interactive, script) == Selected(items, answers)
      invariant grouped == GroupAll(items)
    {
      grouped, items, answers, exhausted := CollectFile(walk, i, j, interactive, script, grouped, items, answers);
      if exhausted {
        return;
      }
      j := j + 1;
    }
    exhausted := false;
  }

  /**
   * The walk step of the generator: visits the directories in walk order and
   * collects the selected files of each. It reports whether an answer was
   * asked for when none was left.
   */
  method CollectLinks(walk: seq<WalkStep>, interactive: bool, script: seq<string>)
    returns (grouped: Groups<string, Entry>, exhausted: bool)
    ensures exhausted <==> SelectAll(Discover(walk), interactive, script).OutOfInput?
    ensures !exhausted ==> grouped == GroupAll(SelectAll(Discover(walk), interactive, script).items)
  {
    var answers := script;
    grouped := [];
    ghost var items: seq<(string, Entry)> := [];
    var i := 0;
    while i < |walk|
      invariant 0 <= i <= |walk|
      invariant SelectAll(Discover(walk[..i]), interactive, script) == Selected(items, answers)
      invariant grouped == GroupAll(items)
    {
      grouped, items, answers, exhausted := CollectFromDirectory(walk, i, interactive, script, grouped, items, answers);
      if exhausted {
        return;
      }
      i := i + 1;
    }
    assert walk[..i] == walk;
    exhausted := false;
  }

  /**
   * The generator: settles the output name, collects the links, and renders
   * the page when the dictionary holds any entry.
   */
  method GenerateHtmlWithPdfLinks(outputName: Option<string>, interactive: bool, useHeaders: bool,
                                  walk: seq<WalkStep>, script: seq<string>) returns (outcome: Outcome)
    ensures outcome == Generate(outputName, interactive, useHeaders, walk, script)
  {
    var choice := AskOutputName(outputName, script);
    match choice {
      case Refused => return InvalidOutputName;
      case Unanswered => return InputExhausted;
      case Named(name, answers) =>
        var grouped, exhausted := CollectLinks(walk, interactive, answers);
        GenerateAfterName(outputName, interactive, useHeaders, walk, script, name, answers);
        if exhausted {
          return InputExhausted;
        }
        if !AnyEntries(grouped) {
          return NothingToGenerate;
        }
        var html := Render(grouped, useHeaders);
        return Written(name, html);
    }
  }

  /** The entry point: parses the command line, then runs the generator. */
  method Run(argv: seq<string>, walk: seq<WalkStep>, script: seq<string>) returns (outcome: Outcome)
    ensures outcome == Program(argv, walk, script)
  {
    var opts := ParseArgs(argv);
    outcome := GenerateHtmlWithPdfLinks(opts.output, opts.interactive, opts.useHeaders, walk, script);
  }


  /**
   * A name given on the command line is used as it is, even one the prompt
   * would refuse, and no answer is read for it.
   */
  lemma CommandLineNameUnchecked(name: string, interactive: bool, useHeaders: bool,
                                 walk: seq<WalkStep>, script: seq<string>)
    requires name != ""
    ensures ResolveOutputName(Some(name), script) == Named(name, script)
    ensures Generate(Some(name), interactive, useHeaders, walk, script) != InvalidOutputName
    ensures Generate(Some(name), interactive, useHeaders, walk, script).Written? ==>
              Generate(Some(name), interactive, useHeaders, walk, script).fileName == name
  {
  }

  /** A refused name on the command line still gets written to. */
  lemma CommandLineNameExample()
    ensures !ValidFileName("out/links.html")
    ensures ResolveOutputName(Some("out/links.html"), []) == Named("out/links.html", [])
  {
    assert "out/links.html"[3] == '/' && InvalidChars[4] == '/';
  }

  /**
   * Without a usable name on the command line, the run is refused exactly
   * when the prompted name, or the default name for a blank answer, has a
   * forbidden character; a blank answer gives the default name, which passes.
   */
  lemma PromptedName(outputName: Option<string>, interactive: bool, useHeaders: bool,
                     walk: seq<WalkStep>, script: seq<string>)
    requires outputName == None || outputName == Some("")
    ensures Generate(outputName, interactive, useHeaders, walk, script) == InvalidOutputName
            <==> script != [] && !ValidFileName(PromptedOutputName(script[0]))
    ensures script == [] ==> Generate(outputName, interactive, useHeaders, walk, script) == InputExhausted
    ensures script != [] && Strip(script[0]) == "" ==>
              ResolveOutputName(outputName, script) == Named(DefaultOutputName, script[1..])
  {
    DefaultOutputNameValid();
  }

  /**
   * Without interaction every qualifying file of the walk becomes one list
   * item under its default label: the page is written exactly when the walk
   * has a qualifying file, and it has one item per qualifying file.
   */
  lemma NonInteractiveRun(outputName: Option<string>, useHeaders: bool, walk: seq<WalkStep>,
                          script: seq<string>, name: string, rest: seq<string>)
    requires ResolveOutputName(outputName, script) == Named(name, rest)
    ensures var groups := GroupAll(DefaultItems(Discover(walk)));
            && Generate(outputName, false, useHeaders, walk, script)
               == (if QualifyingFiles(walk) == 0 then NothingToGenerate
                   else Written(name, Concat(DocumentChunks(groups, useHeaders))))
            && |OfKind(DocumentChunks(groups, useHeaders), ItemKind)| == QualifyingFiles(walk)
  {
    var items := DefaultItems(Discover(walk));
    SelectAllNonInteractive(Discover(walk), rest);
    DiscoverCount(walk);
    GroupAllAnyEntries(items);
    GroupAllTotal(items);
    DocumentChunksOfKind(GroupAll(items), useHeaders);
  }

  /**
   * Once the files are selected, the page is written exactly when some file
   * was; its list items are then one per selected file, grouped by key, and
   * its sub-headings belong to the headed groups, never the scan root's.
   */
  lemma RenderedWhenSelected(outputName: Option<string>, interactive: bool, useHeaders: bool,
                             walk: seq<WalkStep>, script: seq<string>, name: string, rest: seq<string>,
                             items: seq<(string, Entry)>, left: seq<string>)
    requires ResolveOutputName(outputName, script) == Named(name, rest)
    requires SelectAll(Discover(walk), interactive, rest) == Selected(items, left)
    ensures Generate(outputName, interactive, useHeaders, walk, script) == NothingToGenerate <==> items == []
    ensures items != [] ==>
              var groups := GroupAll(items);
              var chunks := DocumentChunks(groups, useHeaders);
              && Generate(outputName, interactive, useHeaders, walk, script) == Written(name, Concat(chunks))
              && OfKind(chunks, ItemKind) == ItemLines(Flatten(groups))
              && |OfKind(chunks, ItemKind)| == |items|
              && OfKind(chunks, HeaderKind) == HeaderLines(HeadedKeys(groups, useHeaders))
              && "." !in HeadedKeys(groups, useHeaders)
  {
    GroupAllAnyEntries(items);
    GroupAllTotal(items);
    DocumentChunksOfKind(GroupAll(items), useHeaders);
    RootNeverHeaded(GroupAll(items), useHeaders);
  }
}
