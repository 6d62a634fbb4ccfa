/**
 * Selection: which found files become links and under which label. In
 * interactive mode each file reads answers from the operator; here the
 * answers are a script, consumed from its front. Running out of answers is
 * where `input()` would raise `EOFError`.
 */
module Selection {
  import opened Text
  import opened FileNames
  import opened Discovery

  /** One link: the target path and the label shown for it. */
  datatype Entry = Entry(path: string, displayName: string)

  /** What happens to one found file. */
  datatype Choice =
    | Exhausted                              // the script ran out
    | Skip(rest: seq<string>)                // excluded; the remaining script
    | Take(entry: Entry, rest: seq<string>)  // included as `entry`; the remaining script

  /** An inclusion answer that excludes the file: "n" once stripped and lower-cased. */
  predicate IsNo(answer: string)
  {
    Lower(Strip(answer)) == "n"
  }

  /** Only a stripped "n" or "N" excludes a file. */
  lemma IsNoExactly(answer: string)
    ensures IsNo(answer) <==> Strip(answer) == "n" || Strip(answer) == "N"
  {
    var t := Strip(answer);
    if |t| == 1 {
      LowerCharTo(t[0], 'n');
      assert Lower(t) == [LowerChar(t[0])];
    }
  }

  /**
   * The display name of an included file: the stripped answer to the name
   * prompt, or the default label (see `CleanFileName`) when that is empty.
   */
  function DisplayName(answer: string, fileName: string): (name: string)
    ensures Strip(answer) == "" ==> name == CleanFileName(fileName)
    ensures Strip(answer) != "" ==> name == Strip(answer)
  {
    var stripped := Strip(answer);
    if stripped == "" then CleanFileName(fileName) else stripped
  }

  /** The selection step for one found file, reading its answers from the front of the script. */
  function SelectFile(f: Found, interactive: bool, script: seq<string>): Choice
  {
    if !interactive then Take(Entry(f.path, CleanFileName(f.name)), script)
    else if script == [] then Exhausted
    else if IsNo(script[0]) then Skip(script[1..])
    else if |script| == 1 then Exhausted
    else Take(Entry(f.path, DisplayName(script[1], f.name)), script[2..])
  }

  /**
   * Without interaction every file is taken with its default label and no
   * answer is read. With interaction the first answer excludes the file
   * exactly when it is a "no"; an included file reads a second answer for its
   * display name; the script running out first leaves no choice.
   */
  lemma SelectFileMeaning(f: Found, interactive: bool, script: seq<string>)
    ensures var c := SelectFile(f, interactive, script);
            && (c.Take? ==> c.entry.path == f.path)
            && (!interactive ==> c == Take(Entry(f.path, CleanFileName(f.name)), script))
            && (interactive ==> (c.Exhausted? <==> script == [] || (!IsNo(script[0]) && |script| == 1)))
            && (interactive ==> (c.Skip? <==> script != [] && IsNo(script[0])))
            && (interactive && c.Skip? ==> c.rest == script[1..])
            && (interactive && c.Take? ==> |script| >= 2 && c.rest == script[2..]
                                           && c.entry.displayName == DisplayName(script[1], f.name))
  {
  }

  /** The outcome of selecting over all found files. */
  datatype Selection =
    | OutOfInput
    | Selected(items: seq<(string, Entry)>, rest: seq<string>)  // (group key, entry) in discovery order

  /** Selects over the found files in discovery order, threading the script through. */
  function SelectAll(found: seq<Found>, interactive: bool, script: seq<string>): Selection
  {
    if found == [] then Selected([], script)
    else
      match SelectAll(found[..|found| - 1], interactive, script)
      case OutOfInput => OutOfInput
      case Selected(items, rest) =>
        var f := found[|found| - 1];
        match SelectFile(f, interactive, rest)
        case Exhausted => OutOfInput
        case Skip(rest') => Selected(items, rest')
        case Take(e, rest') => Selected(items + [(f.key, e)], rest')
  }

  /** `SelectAll` over a non-empty list: the selection over all files but the last, then the last. */
  lemma SelectAllSnoc(found: seq<Found>, interactive: bool, script: seq<string>)
    requires found != []
    ensures SelectAll(found, interactive, script) ==
              match SelectAll(found[..|found| - 1], interactive, script)
              case OutOfInput => OutOfInput
              case Selected(items, rest) =>
                match SelectFile(found[|found| - 1], interactive, rest)
                case Exhausted => OutOfInput
                case Skip(rest') => Selected(items, rest')
                case Take(e, rest') => Selected(items + [(found[|found| - 1].key, e)], rest')
  {
  }

  /** A last file that is taken adds its item after those of the files before it. */
  lemma TakeLast(found: seq<Found>, interactive: bool, script: seq<string>, items: seq<(string, Entry)>,
                 rest: seq<string>, e: Entry, rest': seq<string>)
    requires found != []
    requires SelectAll(found[..|found| - 1], interactive, script) == Selected(items, rest)
    requires SelectFile(found[|found| - 1], interactive, rest) == Take(e, rest')
    ensures SelectAll(found, interactive, script) == Selected(items + [(found[|found| - 1].key, e)], rest')
  {
    SelectAllSnoc(found, interactive, script);
  }

  /** The item a file becomes without interaction. */
  function DefaultItem(f: Found): (string, Entry)
  {
    (f.key, Entry(f.path, CleanFileName(f.name)))
  }

  /** The items of a run without interaction, one per found file. */
  function DefaultItems(found: seq<Found>): (items: seq<(string, Entry)>)
    ensures |items| == |found|
    ensures forall i :: 0 <= i < |found| ==> items[i] == DefaultItem(found[i])
  {
    if found == [] then []
    else DefaultItems(found[..|found| - 1]) + [DefaultItem(found[|found| - 1])]
  }

  /**
   * Without interaction nothing is dropped and nothing is read: the i-th
   * item is the i-th found file, under its group key, with its default label.
   */
  lemma {:induction false} SelectAllNonInteractive(found: seq<Found>, script: seq<string>)
    ensures SelectAll(found, false, script) == Selected(DefaultItems(found), script)
  {
    if found != [] {
      var init := found[..|found| - 1];
      SelectAllNonInteractive(init, script);
      SelectAllSnoc(found, false, script);
    }
  }

  /** Some found file has key `key` and path `path`. */
  predicate FoundWith(found: seq<Found>, key: string, path: string)
  {
    exists i :: 0 <= i < |found| && found[i].key == key && found[i].path == path
  }

  /**
   * Selection fabricates nothing: every item carries the key and the path of
   * some found file, and there are no more items than found files.
   */
  lemma {:induction false} SelectAllSound(found: seq<Found>, interactive: bool, script: seq<string>)
    requires SelectAll(found, interactive, script).Selected?
    ensures |SelectAll(found, interactive, script).items| <= |found|
    ensures forall item :: item in SelectAll(found, interactive, script).items ==>
              FoundWith(found, item.0, item.1.path)
  {
    if found != [] {
      var init, f := found[..|found| - 1], found[|found| - 1];
      SelectAllSnoc(found, interactive, script);
      var prev := SelectAll(init, interactive, script);
      SelectAllSound(init, interactive, script);
      var items := SelectAll(found, interactive, script).items;
      forall item | item in items
        ensures FoundWith(found, item.0, item.1.path)
      {
        if item in prev.items {
          var i :| 0 <= i < |init| && init[i].key == item.0 && init[i].path == item.1.path;
          assert found[i] == init[i];
        } else {
          assert found[|found| - 1] == f;
        }
      }
    }
  }

  /**
   * `idx` places the items at found files: the t-th item carries the key and
   * the path of the file at `idx[t]`, and the positions strictly increase.
   */
  ghost predicate PlacedInOrder(items: seq<(string, Entry)>, found: seq<Found>, idx: seq<int>)
  {
    && |idx| == |items|
    && (forall t :: 0 <= t < |idx| ==>
          0 <= idx[t] < |found| && items[t].0 == found[idx[t]].key && items[t].1.path == found[idx[t]].path)
    && (forall s, t :: 0 <= s < t < |idx| ==> idx[s] < idx[t])
  }

  /**
   * Selection keeps discovery order and takes each found file at most once:
   * the items are a subsequence of the found files, whatever the answers.
   */
  lemma {:induction false} SelectAllInOrder(found: seq<Found>, interactive: bool, script: seq<string>)
    requires SelectAll(found, interactive, script).Selected?
    ensures exists idx :: PlacedInOrder(SelectAll(found, interactive, script).items, found, idx)
  {
    if found == [] {
      assert PlacedInOrder([], found, []);
    } else {
      var init, f := found[..|found| - 1], found[|found| - 1];
      SelectAllSnoc(found, interactive, script);
      var prev := SelectAll(init, interactive, script);
      SelectAllInOrder(init, interactive, script);
      var idx :| PlacedInOrder(prev.items, init, idx);
      assert PlacedInOrder(prev.items, found, idx) by {
        forall t | 0 <= t < |idx|
          ensures found[idx[t]] == init[idx[t]]
        {
        }
      }
      match SelectFile(f, interactive, prev.rest)
      case Skip(_) =>
        assert SelectAll(found, interactive, script).items == prev.items;
      case Take(e, _) =>
        assert e.path == f.path;
        var idx' := idx + [|init|];
        assert PlacedInOrder(prev.items + [(f.key, e)], found, idx');
    }
  }

  /** Once the script has run out on a prefix of the found files, selecting over all of them cannot recover. */
  lemma {:induction false} OutOfInputPersists(found: seq<Found>, k: nat, interactive: bool, script: seq<string>)
    requires k <= |found| && SelectAll(found[..k], interactive, script).OutOfInput?
    ensures SelectAll(found, interactive, script).OutOfInput?
    decreases |found|
  {
    if k < |found| {
      var init := found[..|found| - 1];
      assert init[..k] == found[..k];
      OutOfInputPersists(init, k, interactive, script);
      SelectAllSnoc(found, interactive, script);
    } else {
      assert found[..k] == found;
    }
  }

  /** A script of blank answers, two per file, reads like plain Enter presses. */
  predicate AllBlank(script: seq<string>)
  {
    forall i :: 0 <= i < |script| ==> Strip(script[i]) == ""
  }

  /** Two blank answers include a file under its default label. */
  lemma BlankAnswersTakeDefault(f: Found, script: seq<string>)
    requires |script| >= 2 && Strip(script[0]) == "" && Strip(script[1]) == ""
    ensures SelectFile(f, true, script) == Take(Entry(f.path, CleanFileName(f.name)), script[2..])
  {
    assert !IsNo(script[0]) by {
      assert Lower("") == "";
    }
  }

  lemma BlankSuffix(script: seq<string>, n: nat)
    requires AllBlank(script) && n + 2 <= |script|
    ensures |script[n..]| >= 2 && Strip(script[n..][0]) == "" && Strip(script[n..][1]) == ""
    ensures script[n..][2..] == script[n + 2..]
  {
    assert script[n..][0] == script[n] && script[n..][1] == script[n + 1];
  }

  /**
   * Pressing Enter at every prompt selects exactly what the non-interactive
   * mode selects, using two answers per file.
   */
  lemma {:induction false} EnterEverywhereIsDefault(found: seq<Found>, script: seq<string>)
    requires AllBlank(script) && |script| >= 2 * |found|
    ensures SelectAll(found, true, script) == Selected(DefaultItems(found), script[2 * |found|..])
  {
    if found == [] {
      assert script[0..] == script;
    } else {
      EnterEverywhereIsDefault(found[..|found| - 1], script);
      EnterStep(found, script);
    }
  }

  /** The step of `EnterEverywhereIsDefault`: two more blank answers take one more file. */
  lemma EnterStep(found: seq<Found>, script: seq<string>)
    requires found != [] && AllBlank(script) && |script| >= 2 * |found|
    requires SelectAll(found[..|found| - 1], true, script)
             == Selected(DefaultItems(found[..|found| - 1]), script[2 * (|found| - 1)..])
    ensures SelectAll(found, true, script) == Selected(DefaultItems(found), script[2 * |found|..])
  {
    var n := 2 * (|found| - 1);
    BlankSuffix(script, n);
    BlankStep(found, script, script[n..]);
    assert script[n..][2..] == script[2 * |found|..];
  }

  lemma BlankStep(found: seq<Found>, script: seq<string>, rest: seq<string>)
    requires found != []
    requires SelectAll(found[..|found| - 1], true, script) == Selected(DefaultItems(found[..|found| - 1]), rest)
    requires |rest| >= 2 && Strip(rest[0]) == "" && Strip(rest[1]) == ""
    ensures SelectAll(found, true, script) == Selected(DefaultItems(found), rest[2..])
  {
    var f := found[|found| - 1];
    BlankAnswersTakeDefault(f, rest);
    TakeLast(found, true, script, DefaultItems(found[..|found| - 1]), rest, Entry(f.path, CleanFileName(f.name)), rest[2..]);
  }

  lemma NoSuffix(script: seq<string>, n: nat)
    requires n < |script|
    ensures script[n..][0] == script[n] && script[n..][1..] == script[n + 1..]
  {
  }

  /** Answering "n" to every file selects nothing, one answer per file. */
  lemma {:induction false} NoEverywhereSelectsNothing(found: seq<Found>, script: seq<string>)
    requires forall i :: 0 <= i < |script| ==> IsNo(script[i])
    requires |script| >= |found|
    ensures SelectAll(found, true, script) == Selected([], script[|found|..])
  {
    if found != [] {
      var init := found[..|found| - 1];
      NoEverywhereSelectsNothing(init, script);
      SelectAllSnoc(found, true, script);
      NoSuffix(script, |init|);
    }
  }
}
