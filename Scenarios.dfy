/**
 * Whole runs on small directory trees: a file in the scan root, a file that
 * does not qualify, and a file in a sub-directory. Names and answers are
 * left open, constrained only by what the run depends on.
 */
module Scenarios {
  import opened Wrappers
  import opened Text
  import opened FileNames
  import opened Discovery
  import opened Selection
  import opened Grouping
  import opened Rendering
  import opened Cli
  import opened PdfLinks

  /** `prog -h NAME`: headers on, no interaction, output NAME. */
  lemma TwoDirArgs(prog: string, name: string)
    requires !IsFlag(name)
    ensures ScanArgs(Args([prog, "-h", name])) == Options(false, true, Some(name))
  {
    assert Args([prog, "-h", name]) == ["-h", name];
    assert ["-h", name][..1] == ["-h"];
    assert ["-h"][..0] == [];
    assert ScanArgs(["-h"]) == Options(false, true, None);
  }

  /** The walk finds the two qualifying files, in walk order, under "." and the sub-directory. */
  lemma TwoDirDiscover(a: string, b: string, c: string, p: string)
    requires IsPdf(a) && !IsPdf(b) && IsPdf(c)
    ensures Discover([WalkStep(ScanRoot, [a, b]), WalkStep(Subdir(p), [c])])
            == [Found(".", a, a), Found(p, p + "/" + c, c)]
  {
    var walk := [WalkStep(ScanRoot, [a, b]), WalkStep(Subdir(p), [c])];
    assert walk[..1] == [WalkStep(ScanRoot, [a, b])];
    assert walk[..1][..0] == [];
    assert [a, b][..1] == [a];
    assert [a][..0] == [];
    assert [c][..0] == [];
    assert FoundIn(ScanRoot, [a]) == [Found(".", a, a)];
    assert FoundIn(ScanRoot, [a, b]) == [Found(".", a, a)];
    assert FoundIn(Subdir(p), [c]) == [Found(p, p + "/" + c, c)];
    assert Discover(walk[..1]) == [Found(".", a, a)];
  }

  /** Two items under different keys make two groups of one entry each, in item order. */
  lemma TwoDirGroups(k1: string, e1: Entry, k2: string, e2: Entry)
    requires k1 != k2
    ensures GroupAll([(k1, e1), (k2, e2)]) == [(k1, [e1]), (k2, [e2])]
  {
    var items := [(k1, e1), (k2, e2)];
    assert items[..1] == [(k1, e1)];
    assert [(k1, e1)][..0] == [];
    var g0: Groups<string, Entry> := [];
    assert Keys(g0) == [];
    AppendNewKey(g0, k1, e1);
    var g1 := GroupAll([(k1, e1)]);
    var none: seq<(string, Entry)> := [];
    assert GroupAll(none) == g0;
    assert g1 == Append(GroupAll(none), k1, e1);
    assert g0 + [(k1, [e1])] == [(k1, [e1])];
    assert Keys(g1) == [k1];
    AppendNewKey(g1, k2, e2);
  }

  /** The page for a root group and a sub-directory group, with headers on. */
  lemma TwoGroupsText(k1: string, e1: Entry, k2: string, e2: Entry)
    requires k1 == "." && k2 != "."
    ensures Concat(DocumentChunks([(k1, [e1]), (k2, [e2])], true))
            == Prefix
               + (ListOpen + ItemLine(e1) + ListClose)
               + (HeaderLine(k2) + ListOpen + ItemLine(e2) + ListClose)
               + Suffix
  {
    var groups := [(k1, [e1]), (k2, [e2])];
    assert groups[..1] == [(k1, [e1])];
    assert groups[..1][..0] == [];
    var c1, c2 := GroupChunks(k1, [e1], true), GroupChunks(k2, [e2], true);
    assert BodyChunks(groups[..1], true) == c1;
    assert BodyChunks(groups, true) == c1 + c2;
    ConcatAppend(c1, c2);
    OneItemText(e1);
    OneItemText(e2);
    GroupText(k1, [e1], true);
    GroupText(k2, [e2], true);
    DocumentText(groups, true);
    var g1 := ListOpen + ItemLine(e1) + ListClose;
    var g2 := HeaderLine(k2) + ListOpen + ItemLine(e2) + ListClose;
    assert "" + ListOpen == ListOpen;
    assert Concat(c1) == g1 && Concat(c2) == g2;
    Assoc(Prefix, g1, g2);
  }

  lemma OneItemText(e: Entry)
    ensures Concat(ItemLines([e])) == ItemLine(e)
  {
    var one := ItemLines([e]);
    assert one == [ItemLine(e)];
    assert one[..0] == [];
  }

  /**
   * `prog -h NAME` over the tree: both qualifying files are linked under
   * their default labels, the root's list comes first and without a heading,
   * the sub-directory's list follows under its own heading.
   */
  lemma HeadedRun(prog: string, name: string, a: string, b: string, c: string, p: string, script: seq<string>)
    requires !IsFlag(name) && name != "" && p != "."
    requires IsPdf(a) && !IsPdf(b) && IsPdf(c)
    ensures Program([prog, "-h", name], [WalkStep(ScanRoot, [a, b]), WalkStep(Subdir(p), [c])], script)
            == Written(name,
                       Prefix
                       + (ListOpen + ItemLine(Entry(a, CleanFileName(a))) + ListClose)
                       + (HeaderLine(p) + ListOpen + ItemLine(Entry(p + "/" + c, CleanFileName(c))) + ListClose)
                       + Suffix)
  {
    var walk := [WalkStep(ScanRoot, [a, b]), WalkStep(Subdir(p), [c])];
    var e1, e2 := Entry(a, CleanFileName(a)), Entry(p + "/" + c, CleanFileName(c));
    var items := [(".", e1), (p, e2)];
    TwoDirArgs(prog, name);
    TwoDirDiscover(a, b, c, p);
    TwoDirDefaults(a, c, p);
    SelectAllNonInteractive(Discover(walk), script);
    GenerateAfterName(Some(name), false, true, walk, script, name, script);
    GroupAllAnyEntries(items);
    TwoDirGroups(".", e1, p, e2);
    TwoGroupsText(".", e1, p, e2);
  }

  lemma TwoDirDefaults(a: string, c: string, p: string)
    ensures DefaultItems([Found(".", a, a), Found(p, p + "/" + c, c)])
            == [(".", Entry(a, CleanFileName(a))), (p, Entry(p + "/" + c, CleanFileName(c)))]
  {
  }

  /** `prog -i NAME`: interaction on, headers off, output NAME. */
  lemma OneDirArgs(prog: string, name: string)
    requires !IsFlag(name)
    ensures ScanArgs(Args([prog, "-i", name])) == Options(true, false, Some(name))
  {
    assert Args([prog, "-i", name]) == ["-i", name];
    assert ["-i", name][..1] == ["-i"];
    assert ["-i"][..0] == [];
    assert ScanArgs(["-i"]) == Options(true, false, None);
  }

  lemma OneGroup(k: string, e: Entry)
    ensures GroupAll([(k, e)]) == [(k, [e])]
  {
    assert [(k, e)][..0] == [];
    var g0: Groups<string, Entry> := [];
    var none: seq<(string, Entry)> := [];
    assert Keys(g0) == [];
    assert GroupAll(none) == g0;
    AppendNewKey(g0, k, e);
    assert g0 + [(k, [e])] == [(k, [e])];
  }

  /** The page for a single group that gets no heading. */
  lemma OneGroupText(k: string, e: Entry, useHeaders: bool)
    requires !HasHeader(k, useHeaders)
    ensures Concat(DocumentChunks([(k, [e])], useHeaders)) == Prefix + (ListOpen + ItemLine(e) + ListClose) + Suffix
  {
    var groups := [(k, [e])];
    assert groups[..0] == [];
    var c := GroupChunks(k, [e], useHeaders);
    assert BodyChunks(groups, useHeaders) == [] + c;
    assert [] + c == c;
    OneItemText(e);
    GroupText(k, [e], useHeaders);
    DocumentText(groups, useHeaders);
    assert "" + ListOpen == ListOpen;
  }

  /** A "no" skips the first file; a non-"no" and a label take the second one under that label. */
  lemma SkipThenTake(f1: Found, f2: Found, no: string, yes: string, title: string)
    requires IsNo(no) && !IsNo(yes) && Strip(title) != ""
    ensures SelectAll([f1, f2], true, [no, yes, title])
            == Selected([(f2.key, Entry(f2.path, Strip(title)))], [])
  {
    var script := [no, yes, title];
    SkipFirst(f1, script);
    assert script[1..] == [yes, title];
    TakeLabelled(f2, yes, title);
    TakeSecond(f1, f2, script, [yes, title], Entry(f2.path, Strip(title)), []);
  }

  /** The second file taken after the first was skipped: its item is the only one. */
  lemma TakeSecond(f1: Found, f2: Found, script: seq<string>, rest: seq<string>, e: Entry, rest': seq<string>)
    requires SelectAll([f1], true, script) == Selected([], rest)
    requires SelectFile(f2, true, rest) == Take(e, rest')
    ensures SelectAll([f1, f2], true, script) == Selected([(f2.key, e)], rest')
  {
    var none: seq<(string, Entry)> := [];
    TakeNext([f1], f2, script, none, rest, e, rest');
    assert [f1] + [f2] == [f1, f2];
    assert none + [(f2.key, e)] == [(f2.key, e)];
  }

  /** A file taken after the files so far adds its item and leaves the answers it did not read. */
  lemma TakeNext(found: seq<Found>, f: Found, script: seq<string>, items: seq<(string, Entry)>,
                 rest: seq<string>, e: Entry, rest': seq<string>)
    requires SelectAll(found, true, script) == Selected(items, rest)
    requires SelectFile(f, true, rest) == Take(e, rest')
    ensures SelectAll(found + [f], true, script) == Selected(items + [(f.key, e)], rest')
  {
    SelectNext(found, f, true, script);
  }

  /** A first answer of "no" skips the first file and reads one answer. */
  lemma SkipFirst(f: Found, script: seq<string>)
    requires script != [] && IsNo(script[0])
    ensures SelectAll([f], true, script) == Selected([], script[1..])
  {
    var none: seq<Found> := [];
    SelectNext(none, f, true, script);
    assert none + [f] == [f];
  }

  /** Any other answer, then a label, takes the file under the stripped label. */
  lemma TakeLabelled(f: Found, yes: string, title: string)
    requires !IsNo(yes) && Strip(title) != ""
    ensures SelectFile(f, true, [yes, title]) == Take(Entry(f.path, Strip(title)), [])
  {
    var script := [yes, title];
    LabelAnswer(f, script);
    assert script[0] == yes && script[1] == title && script[2..] == [];
  }

  /** A non-"no" then a non-blank label take the file under the stripped label. */
  lemma LabelAnswer(f: Found, script: seq<string>)
    requires |script| >= 2 && !IsNo(script[0]) && Strip(script[1]) != ""
    ensures SelectFile(f, true, script) == Take(Entry(f.path, Strip(script[1])), script[2..])
  {
  }

  /**
   * `prog -i NAME` over the tree, answering "no" for the root's file and
   * giving a label for the other: the page links only the second file, under
   * the label, and has no heading because headers are off.
   */
  lemma InteractiveRun(prog: string, name: string, a: string, b: string, c: string, p: string,
                       no: string, yes: string, title: string)
    requires !IsFlag(name) && name != ""
    requires IsPdf(a) && !IsPdf(b) && IsPdf(c)
    requires IsNo(no) && !IsNo(yes) && Strip(title) != ""
    ensures Program([prog, "-i", name], [WalkStep(ScanRoot, [a, b]), WalkStep(Subdir(p), [c])], [no, yes, title])
            == Written(name, Prefix + (ListOpen + ItemLine(Entry(p + "/" + c, Strip(title))) + ListClose) + Suffix)
  {
    var walk := [WalkStep(ScanRoot, [a, b]), WalkStep(Subdir(p), [c])];
    OneDirArgs(prog, name);
    TwoDirDiscover(a, b, c, p);
    var e := Entry(p + "/" + c, Strip(title));
    SkipThenTake(Found(".", a, a), Found(p, p + "/" + c, c), no, yes, title);
    OneGroup(p, e);
    OneGroupText(p, e, false);
    RenderedWhenSelected(Some(name), true, false, walk, [no, yes, title], name, [no, yes, title], [(p, e)], []);
  }
}
