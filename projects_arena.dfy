/**
 * The project grid's faceted filter (`ProjectsArena`): the category and
 * technology facets derived from the project list, the two selections, and
 * the list of projects the selections let through.
 */
module ProjectsArena {
  import opened CountMap
  import opened EntrySort
  import opened Strings
  import opened FilterBar
  import opened Optional

  /** The fields of a project record that the filter reads. */
  datatype Project = Project(slug: string, category: string, stack: seq<string>)

  /** The selection value that waives a criterion. */
  const All := "all"

  /** How many technology facets are offered besides "all". */
  const MaxStackOptions := 16

  const AllLaunches := FilterOption(All, Caption("All Launches"))
  const AllTech := FilterOption(All, Caption("All Tech"))

  // ---------------------------------------------------------------------
  // Category facets

  /** `project.category || 'Uncategorized'`: the bucket a project counts in. */
  function CategoryKey(p: Project): (k: string)
    ensures k != ""
    ensures p.category != "" ==> k == p.category
  {
    if p.category == "" then "Uncategorized" else p.category
  }

  function CategoryKeys(projects: seq<Project>): (keys: seq<string>)
    ensures |keys| == |projects|
  {
    seq(|projects|, i requires 0 <= i < |projects| => CategoryKey(projects[i]))
  }

  lemma CategoryKeysOfPrefix(projects: seq<Project>, i: nat)
    requires i < |projects|
    ensures CategoryKeys(projects[..i + 1]) == CategoryKeys(projects[..i]) + [CategoryKey(projects[i])]
  {
  }

  /** The loop filling `buckets`: one count per category key. */
  method CountCategories(projects: seq<Project>) returns (buckets: seq<Entry>)
    ensures Tallies(buckets, CategoryKeys(projects))
  {
    buckets := [];
    TalliesEmpty();
    var i := 0;
    while i < |projects|
      invariant 0 <= i <= |projects|
      invariant Tallies(buckets, CategoryKeys(projects[..i]))
    {
      var key := CategoryKey(projects[i]);
      TallyStep(buckets, CategoryKeys(projects[..i]), key);
      buckets := Set(buckets, key, CountOf(buckets, key) + 1);
      CategoryKeysOfPrefix(projects, i);
      i := i + 1;
    }
    assert projects[..i] == projects;
  }

  /** `${value} (${count})` for one map entry. */
  function EntryOption(e: Entry): FilterOption
  {
    FilterOption(e.key, Counted(e.key, e.count))
  }

  function EntryOptions(entries: seq<Entry>): (options: seq<FilterOption>)
    ensures |options| == |entries|
  {
    seq(|entries|, i requires 0 <= i < |entries| => EntryOption(entries[i]))
  }

  /** The count an option shows; the synthetic "all" options show none. */
  function OptionCount(option: FilterOption): nat
  {
    match option.display
    case Counted(_, n) => n
    case Caption(_) => 0
  }

  function SumCounts(options: seq<FilterOption>): nat
  {
    if options == [] then 0 else OptionCount(options[0]) + SumCounts(options[1..])
  }

  lemma {:induction false} SumCountsOfEntries(entries: seq<Entry>)
    ensures SumCounts(EntryOptions(entries)) == Sum(entries)
  {
    if entries != [] {
      assert EntryOptions(entries)[1..] == EntryOptions(entries[1..]);
      SumCountsOfEntries(entries[1..]);
    }
  }

  /** The sort-and-map pipeline of `categoryOptions`. */
  function CategoryOptionsFrom(buckets: seq<Entry>): (options: seq<FilterOption>)
    ensures |options| == 1 + |buckets| && options[0] == AllLaunches
  {
    [AllLaunches] + EntryOptions(SortEntries(buckets, ByKey))
  }

  /** Each option is selected by its entry's key. */
  lemma ValuesOfEntryOptions(entries: seq<Entry>)
    ensures Values(EntryOptions(entries)) == Keys(entries)
  {
  }

  /**
   * Every entry of a permutation of a tally shows the true count of its key.
   */
  lemma PermutedTally(m: seq<Entry>, keys: seq<string>, r: seq<Entry>)
    requires Tallies(m, keys) && multiset(r) == multiset(m)
    ensures forall i :: 0 <= i < |r| ==> r[i].key in keys && r[i].count == multiset(keys)[r[i].key]
  {
    forall i | 0 <= i < |r| ensures r[i].key in keys && r[i].count == multiset(keys)[r[i].key] {
      assert r[i] in multiset(m);
      var p :| 0 <= p < |m| && m[p] == r[i];
      assert Keys(m)[p] == r[i].key;
      CountOfMember(m, p);
    }
  }

  /** A permutation of a tally holds an entry for every key counted. */
  lemma PermutedTallyCovers(m: seq<Entry>, keys: seq<string>, r: seq<Entry>, k: string)
    requires Tallies(m, keys) && multiset(r) == multiset(m) && k in keys
    ensures k in Keys(r)
  {
    assert k in Keys(m);
    var p := IndexOfKey(m, k);
    assert m[p] in multiset(r);
    var q :| 0 <= q < |r| && r[q] == m[p];
    assert Keys(r)[q] == k;
  }

  /** Sorted by key, the buckets' keys strictly ascend. */
  lemma KeysAscend(buckets: seq<Entry>, keys: seq<string>)
    requires Tallies(buckets, keys)
    ensures var r := SortEntries(buckets, ByKey);
      forall i, j :: 0 <= i < j < |r| ==> LocaleCompare(r[i].key, r[j].key) < 0
  {
    SortEntriesStable(buckets, ByKey);
  }

  lemma KeyAscendsAt(buckets: seq<Entry>, keys: seq<string>, a: nat, b: nat)
    requires Tallies(buckets, keys) && a < b < |buckets|
    ensures var r := SortEntries(buckets, ByKey);
      LocaleCompare(r[a].key, r[b].key) < 0
  {
    KeysAscend(buckets, keys);
  }

  /** The category options other than "All Launches" name exactly the category keys. */
  lemma CategoryOptionsCover(buckets: seq<Entry>, keys: seq<string>)
    requires Tallies(buckets, keys)
    ensures forall k :: k in keys <==> k in Values(CategoryOptionsFrom(buckets)[1..])
  {
    var r := SortEntries(buckets, ByKey);
    assert CategoryOptionsFrom(buckets)[1..] == EntryOptions(r);
    ValuesOfEntryOptions(r);
    PermutedTally(buckets, keys, r);
    forall k | k in keys ensures k in Keys(r) {
      PermutedTallyCovers(buckets, keys, r, k);
    }
  }

  /**
   * The category options: "All Launches" first, then one option per
   * distinct category key, in strictly ascending key order, each showing
   * how many projects fall in it; the counts add up to the number of
   * projects.
   */
  lemma CategoryOptionsCorrect(buckets: seq<Entry>, keys: seq<string>)
    requires Tallies(buckets, keys)
    ensures var options := CategoryOptionsFrom(buckets);
      && |options| == 1 + |FirstSeen(keys)|
      && options[0] == AllLaunches
      && (forall i :: 1 <= i < |options| ==>
            options[i].display == Counted(options[i].value, multiset(keys)[options[i].value]))
      && (forall k :: k in keys <==> k in Values(options[1..]))
      && (forall i, j :: 1 <= i < j < |options| ==> LocaleCompare(options[i].value, options[j].value) < 0)
      && SumCounts(options[1..]) == |keys|
  {
    assert |Keys(buckets)| == |buckets|;
    CategoryOptionsCounted(buckets, keys);
    CategoryOptionsCover(buckets, keys);
    CategoryOptionsAscend(buckets, keys);
    CategoryOptionsSum(buckets, keys);
  }

  /** Each category option shows the number of projects under its key. */
  lemma CategoryOptionsCounted(buckets: seq<Entry>, keys: seq<string>)
    requires Tallies(buckets, keys)
    ensures var options := CategoryOptionsFrom(buckets);
      forall i :: 1 <= i < |options| ==>
        options[i].display == Counted(options[i].value, multiset(keys)[options[i].value])
  {
    var r := SortEntries(buckets, ByKey);
    assert CategoryOptionsFrom(buckets)[1..] == EntryOptions(r);
    PermutedTally(buckets, keys, r);
  }

  /** The category options after "All Launches" strictly ascend. */
  lemma CategoryOptionsAscend(buckets: seq<Entry>, keys: seq<string>)
    requires Tallies(buckets, keys)
    ensures var options := CategoryOptionsFrom(buckets);
      forall i, j :: 1 <= i < j < |options| ==> LocaleCompare(options[i].value, options[j].value) < 0
  {
    var options := CategoryOptionsFrom(buckets);
    forall i, j | 1 <= i < j < |options|
      ensures LocaleCompare(options[i].value, options[j].value) < 0
    {
      CategoryOptionAt(buckets, i);
      CategoryOptionAt(buckets, j);
      KeyAscendsAt(buckets, keys, i - 1, j - 1);
    }
  }

  /** Category option `i` shows the key of sorted entry `i - 1`. */
  lemma CategoryOptionAt(buckets: seq<Entry>, i: nat)
    requires 1 <= i < |CategoryOptionsFrom(buckets)|
    ensures var r := SortEntries(buckets, ByKey);
      i - 1 < |buckets| && CategoryOptionsFrom(buckets)[i].value == r[i - 1].key
  {
    var r := SortEntries(buckets, ByKey);
    var entries := EntryOptions(r);
    assert CategoryOptionsFrom(buckets) == [AllLaunches] + entries;
    assert CategoryOptionsFrom(buckets)[i] == entries[i - 1] == EntryOption(r[i - 1]);
  }

  /** The counts of the category options add up to the number of keys counted. */
  lemma CategoryOptionsSum(buckets: seq<Entry>, keys: seq<string>)
    requires Tallies(buckets, keys)
    ensures SumCounts(CategoryOptionsFrom(buckets)[1..]) == |keys|
  {
    var r := SortEntries(buckets, ByKey);
    assert CategoryOptionsFrom(buckets)[1..] == EntryOptions(r);
    SortEntriesSum(buckets, ByKey);
    SumCountsOfEntries(r);
  }

  /** `categoryOptions`. */
  method CategoryOptions(projects: seq<Project>) returns (options: seq<FilterOption>)
    ensures |options| == 1 + |FirstSeen(CategoryKeys(projects))|
    ensures options[0] == AllLaunches
    ensures forall i :: 1 <= i < |options| ==>
      options[i].display == Counted(options[i].value, multiset(CategoryKeys(projects))[options[i].value])
    ensures forall k :: k in CategoryKeys(projects) <==> k in Values(options[1..])
    ensures forall i, j :: 1 <= i < j < |options| ==> LocaleCompare(options[i].value, options[j].value) < 0
    ensures SumCounts(options[1..]) == |projects|
  {
    var buckets := CountCategories(projects);
    options := CategoryOptionsFrom(buckets);
    CategoryOptionsCorrect(buckets, CategoryKeys(projects));
  }

  // ---------------------------------------------------------------------
  // Technology facets

  /** Every tag of every project, project by project, in order. */
  function Tags(projects: seq<Project>): (tags: seq<string>)
    ensures forall t :: t in tags <==> exists p :: p in projects && t in p.stack
  {
    if projects == [] then []
    else Tags(projects[..|projects| - 1]) + projects[|projects| - 1].stack
  }

  lemma PrefixStep(seen: seq<string>, stack: seq<string>, j: nat)
    requires j < |stack|
    ensures seen + stack[..j + 1] == seen + stack[..j] + [stack[j]]
  {
    assert stack[..j + 1] == stack[..j] + [stack[j]];
  }

  lemma TagsOfPrefix(projects: seq<Project>, i: nat)
    requires i < |projects|
    ensures Tags(projects[..i + 1]) == Tags(projects[..i]) + projects[i].stack
  {
    assert projects[..i + 1][..i] == projects[..i];
  }

  /** The nested loops filling `stacks`: one count per tag occurrence. */
  method CountTags(projects: seq<Project>) returns (stacks: seq<Entry>)
    ensures Tallies(stacks, Tags(projects))
  {
    stacks := [];
    TalliesEmpty();
    var i := 0;
    while i < |projects|
      invariant 0 <= i <= |projects|
      invariant Tallies(stacks, Tags(projects[..i]))
    {
      var stack := projects[i].stack;
      var j := 0;
      assert Tags(projects[..i]) + stack[..j] == Tags(projects[..i]);
      while j < |stack|
        invariant 0 <= j <= |stack|
        invariant Tallies(stacks, Tags(projects[..i]) + stack[..j])
      {
        var tech := stack[j];
        TallyStep(stacks, Tags(projects[..i]) + stack[..j], tech);
        stacks := Set(stacks, tech, CountOf(stacks, tech) + 1);
        PrefixStep(Tags(projects[..i]), stack, j);
        j := j + 1;
      }
      assert stack[..j] == stack;
      TagsOfPrefix(projects, i);
      i := i + 1;
    }
    assert projects[..i] == projects;
  }

  /**
   * The order of the technology facets: more occurrences first, and among
   * equal counts the tag met first in the project list first.
   */
  ghost predicate RanksAbove(tags: seq<string>, a: string, b: string)
  {
    || multiset(tags)[a] > multiset(tags)[b]
    || (multiset(tags)[a] == multiset(tags)[b] && IndexOf(FirstSeen(tags), a) < IndexOf(FirstSeen(tags), b))
  }

  /** Each entry of `r` ranks above every entry after it. */
  ghost predicate InRankOrder(tags: seq<string>, r: seq<Entry>)
  {
    forall i, j :: 0 <= i < j < |r| ==> RanksAbove(tags, r[i].key, r[j].key)
  }

  /** The sort-slice-map pipeline of `stackOptions`. */
  function StackOptionsFrom(stacks: seq<Entry>): (options: seq<FilterOption>)
    ensures |options| == 1 + (if |stacks| < MaxStackOptions then |stacks| else MaxStackOptions)
    ensures options[0] == AllTech
  {
    var ranked := SortEntries(stacks, ByCountDesc);
    [AllTech] + EntryOptions(ranked[..if |ranked| < MaxStackOptions then |ranked| else MaxStackOptions])
  }

  /** Sorted by count, the tags come out in rank order. */
  lemma TagsRanked(stacks: seq<Entry>, tags: seq<string>)
    requires Tallies(stacks, tags)
    ensures InRankOrder(tags, SortEntries(stacks, ByCountDesc))
  {
    var r := SortEntries(stacks, ByCountDesc);
    SortEntriesStable(stacks, ByCountDesc);
    PermutedTally(stacks, tags, r);
  }

  /** Cut a ranked list after `n` places: a tag cut ranks below a tag kept. */
  lemma DroppedRanksBelow(r: seq<Entry>, tags: seq<string>, n: nat, t: string, a: nat)
    requires InRankOrder(tags, r)
    requires a < n <= |r| && t in Keys(r) && t !in Keys(r[..n])
    ensures RanksAbove(tags, r[a].key, t)
  {
    var q :| 0 <= q < |r| && Keys(r)[q] == t;
    assert Keys(r[..n]) == Keys(r)[..n];
    if q < n {
      assert false;
    }
    assert RanksAbove(tags, r[a].key, r[q].key);
  }

  /**
   * The technology options: "All Tech" first, then the 16 top-ranked tags
   * (or all of them, when there are fewer), in rank order, each showing how
   * often it occurs.
   */
  lemma StackOptionsRanked(stacks: seq<Entry>, tags: seq<string>)
    requires Tallies(stacks, tags)
    ensures var options := StackOptionsFrom(stacks);
      && |options| == 1 + (if |FirstSeen(tags)| < MaxStackOptions then |FirstSeen(tags)| else MaxStackOptions)
      && options[0] == AllTech
      && (forall i :: 1 <= i < |options| ==>
            options[i].value in tags
            && options[i].display == Counted(options[i].value, multiset(tags)[options[i].value]))
      && (forall i, j :: 1 <= i < j < |options| ==> RanksAbove(tags, options[i].value, options[j].value))
  {
    var r := SortEntries(stacks, ByCountDesc);
    var options := StackOptionsFrom(stacks);
    assert forall i :: 1 <= i < |options| ==> options[i] == EntryOption(r[i - 1]);
    PermutedTally(stacks, tags, r);
    TagsRanked(stacks, tags);
  }

  /** The values shown by the technology options after "All Tech" are the kept keys. */
  lemma StackOptionValues(stacks: seq<Entry>)
    ensures var r := SortEntries(stacks, ByCountDesc);
      var n := if |r| < MaxStackOptions then |r| else MaxStackOptions;
      Values(StackOptionsFrom(stacks)[1..]) == Keys(r[..n])
  {
    var r := SortEntries(stacks, ByCountDesc);
    var n := if |r| < MaxStackOptions then |r| else MaxStackOptions;
    var kept := r[..n];
    assert StackOptionsFrom(stacks)[1..] == EntryOptions(kept);
    ValuesOfEntryOptions(kept);
  }

  /** Technology option `i` shows the key of ranked entry `i - 1`, which was kept. */
  lemma StackOptionAt(stacks: seq<Entry>, i: nat)
    requires 1 <= i < |StackOptionsFrom(stacks)|
    ensures var r := SortEntries(stacks, ByCountDesc);
      && i - 1 < (if |r| < MaxStackOptions then |r| else MaxStackOptions)
      && StackOptionsFrom(stacks)[i].value == r[i - 1].key
  {
    var r := SortEntries(stacks, ByCountDesc);
    var n := if |r| < MaxStackOptions then |r| else MaxStackOptions;
    var entries := EntryOptions(r[..n]);
    assert StackOptionsFrom(stacks) == [AllTech] + entries;
    assert StackOptionsFrom(stacks)[i] == entries[i - 1] == EntryOption(r[i - 1]);
  }

  /** A tag left out of the technology options ranks below a tag kept. */
  lemma LeftOutRanksBelow(stacks: seq<Entry>, tags: seq<string>, t: string, i: nat)
    requires Tallies(stacks, tags)
    requires t in tags && t !in Values(StackOptionsFrom(stacks)[1..]) && 1 <= i < |StackOptionsFrom(stacks)|
    ensures RanksAbove(tags, StackOptionsFrom(stacks)[i].value, t)
  {
    var r := SortEntries(stacks, ByCountDesc);
    var n := if |r| < MaxStackOptions then |r| else MaxStackOptions;
    StackOptionValues(stacks);
    StackOptionAt(stacks, i);
    TagsRanked(stacks, tags);
    PermutedTallyCovers(stacks, tags, r, t);
    DroppedRanksBelow(r, tags, n, t, i - 1);
  }

  /** Every tag left out of the technology options ranks below every tag kept. */
  lemma StackOptionsKeepTop(stacks: seq<Entry>, tags: seq<string>)
    requires Tallies(stacks, tags)
    ensures var options := StackOptionsFrom(stacks);
      forall t, i :: t in tags && t !in Values(options[1..]) && 1 <= i < |options| ==>
        RanksAbove(tags, options[i].value, t)
  {
    var options := StackOptionsFrom(stacks);
    forall t, i | t in tags && t !in Values(options[1..]) && 1 <= i < |options|
      ensures RanksAbove(tags, options[i].value, t)
    {
      LeftOutRanksBelow(stacks, tags, t, i);
    }
  }

  /** `stackOptions`. */
  method StackOptions(projects: seq<Project>) returns (options: seq<FilterOption>)
    ensures |options| == 1 + (if |FirstSeen(Tags(projects))| < MaxStackOptions then |FirstSeen(Tags(projects))| else MaxStackOptions)
    ensures options[0] == AllTech
    ensures forall i :: 1 <= i < |options| ==>
      options[i].value in Tags(projects)
      && options[i].display == Counted(options[i].value, multiset(Tags(projects))[options[i].value])
    ensures forall i, j :: 1 <= i < j < |options| ==> RanksAbove(Tags(projects), options[i].value, options[j].value)
    ensures forall t, i :: t in Tags(projects) && t !in Values(options[1..]) && 1 <= i < |options| ==>
      RanksAbove(Tags(projects), options[i].value, t)
  {
    var stacks := CountTags(projects);
    options := StackOptionsFrom(stacks);
    StackOptionsRanked(stacks, Tags(projects));
    StackOptionsKeepTop(stacks, Tags(projects));
  }

  /**
   * No category is spelled "all": then the category buttons have distinct
   * values, so each of them is pressed and holds the tab stop exactly when
   * it is selected.
   */
  lemma CategoryOptionsDistinct(buckets: seq<Entry>, keys: seq<string>)
    requires Tallies(buckets, keys) && All !in keys
    ensures DistinctValues(CategoryOptionsFrom(buckets))
  {
    var options := CategoryOptionsFrom(buckets);
    CategoryOptionsCorrect(buckets, keys);
    forall i, j | 0 <= i < j < |options| ensures options[i].value != options[j].value {
      assert options[j].value == Values(options[1..])[j - 1];
      if i > 0 {
        assert LocaleCompare(options[i].value, options[j].value) < 0;
      }
    }
  }

  /** No tag spelled "all": then the technology buttons have distinct values. */
  lemma StackOptionsDistinct(stacks: seq<Entry>, tags: seq<string>)
    requires Tallies(stacks, tags) && All !in tags
    ensures DistinctValues(StackOptionsFrom(stacks))
  {
    var options := StackOptionsFrom(stacks);
    StackOptionsRanked(stacks, tags);
    forall i, j | 0 <= i < j < |options| ensures options[i].value != options[j].value {
      if i > 0 {
        assert RanksAbove(tags, options[i].value, options[j].value);
      } else {
        assert options[j].value in tags;
      }
    }
  }

  // ---------------------------------------------------------------------
  // Visible projects

  /** The category criterion: waived by "all", else the raw category, exactly. */
  predicate CategoryMatch(p: Project, category: string)
    ensures category == All ==> CategoryMatch(p, category)
    ensures category != All && p.category != "" ==> (CategoryMatch(p, category) <==> CategoryKey(p) == category)
  {
    category == All || p.category == category
  }

  /** The stack criterion: waived by "all", else some tag equal up to case. */
  predicate StackMatch(p: Project, stack: string)
    ensures stack == All || stack in p.stack ==> StackMatch(p, stack)
    ensures StackMatch(p, stack) && stack != All ==> |p.stack| > 0
  {
    stack == All || exists tech :: tech in p.stack && Lower(tech) == Lower(stack)
  }

  predicate Matches(p: Project, category: string, stack: string)
    ensures category == All && stack == All ==> Matches(p, category, stack)
    ensures (category == All || category == p.category) && (stack == All || stack in p.stack) ==> Matches(p, category, stack)
  {
    CategoryMatch(p, category) && StackMatch(p, stack)
  }

  /** `visibleProjects`: `projects.filter(...)` under the two selections. */
  function VisibleProjects(projects: seq<Project>, category: string, stack: string): (visible: seq<Project>)
    ensures |visible| <= |projects|
    ensures forall p :: p in visible ==> p in projects && Matches(p, category, stack)
  {
    if projects == [] then []
    else
      var rest := VisibleProjects(projects[1..], category, stack);
      if Matches(projects[0], category, stack) then [projects[0]] + rest else rest
  }

  /** `a` is `b` with some elements removed and the rest in their order. */
  ghost predicate IsSubsequence(a: seq<Project>, b: seq<Project>)
  {
    if b == [] then a == []
    else
      || (a != [] && a[0] == b[0] && IsSubsequence(a[1..], b[1..]))
      || IsSubsequence(a, b[1..])
  }

  /** The visible projects keep the order of the project list. */
  lemma {:induction false} VisibleIsSubsequence(projects: seq<Project>, category: string, stack: string)
    ensures IsSubsequence(VisibleProjects(projects, category, stack), projects)
  {
    if projects != [] {
      var rest := VisibleProjects(projects[1..], category, stack);
      VisibleIsSubsequence(projects[1..], category, stack);
      if Matches(projects[0], category, stack) {
        assert ([projects[0]] + rest)[1..] == rest;
      }
    }
  }

  /**
   * The visible projects are exactly the matching ones: each matching
   * project as often as it is listed, no other project at all.
   */
  lemma {:induction false} VisibleExactlyMatching(projects: seq<Project>, category: string, stack: string, p: Project)
    ensures multiset(VisibleProjects(projects, category, stack))[p] ==
              if Matches(p, category, stack) then multiset(projects)[p] else 0
    ensures p in VisibleProjects(projects, category, stack) <==> p in projects && Matches(p, category, stack)
  {
    if projects != [] {
      VisibleExactlyMatching(projects[1..], category, stack, p);
      assert projects == [projects[0]] + projects[1..];
    }
  }

  /** With both selections at "all", every project is visible, in order. */
  lemma {:induction false} VisibleAllIsIdentity(projects: seq<Project>)
    ensures VisibleProjects(projects, All, All) == projects
  {
    if projects != [] {
      VisibleAllIsIdentity(projects[1..]);
      assert projects == [projects[0]] + projects[1..];
    }
  }

  /** Filtering the visible projects again changes nothing. */
  lemma {:induction false} VisibleIdempotent(projects: seq<Project>, category: string, stack: string)
    ensures VisibleProjects(VisibleProjects(projects, category, stack), category, stack)
         == VisibleProjects(projects, category, stack)
  {
    if projects != [] {
      var rest := VisibleProjects(projects[1..], category, stack);
      VisibleIdempotent(projects[1..], category, stack);
      if Matches(projects[0], category, stack) {
        assert ([projects[0]] + rest)[1..] == rest;
      }
    }
  }

  /**
   * The case asymmetry between counting and filtering: a project is listed
   * under every tag it carries, and selecting that tag, in any case, shows
   * it; "react" selects a project tagged "React".
   */
  lemma CountedTagSelectsProject(p: Project, tech: string, selected: string)
    requires tech in p.stack && Lower(selected) == Lower(tech)
    ensures StackMatch(p, selected)
  {
  }

  /**
   * Matching a technology ignores case: two concrete selections equal up to
   * case pass the same projects. Only the "all" waiver compares exactly.
   */
  lemma StackMatchCaseInsensitive(p: Project, s: string, s': string)
    requires s != All && s' != All && Lower(s) == Lower(s')
    ensures StackMatch(p, s) <==> StackMatch(p, s')
  {
    if StackMatch(p, s) {
      var tech :| tech in p.stack && Lower(tech) == Lower(s);
      assert Lower(tech) == Lower(s');
    }
    if StackMatch(p, s') {
      var tech :| tech in p.stack && Lower(tech) == Lower(s');
      assert Lower(tech) == Lower(s);
    }
  }

  /** The "all" waiver is case-sensitive: "ALL" is a concrete selection. */
  lemma UpperAllIsConcrete()
    ensures !StackMatch(Project("x", "Web", []), "ALL")
  {
  }

  lemma StackMatchIgnoresCase()
    ensures StackMatch(Project("a", "Web", ["React"]), "react")
  {
    assert Lower("React") == Lower("react");
  }

  /** Three projects for the worked examples below. */
  const ExampleA := Project("a", "Web", ["React", "Go"])
  const ExampleB := Project("b", "Web", ["Go"])
  const ExampleC := Project("c", "Tools", [])

  /** Selecting technology "go" keeps both projects tagged "Go", in order. */
  lemma FilterByStackExample()
    ensures VisibleProjects([ExampleA, ExampleB, ExampleC], All, "go") == [ExampleA, ExampleB]
  {
    assert Lower("Go") == Lower("go");
    assert !Matches(ExampleC, All, "go");
    assert VisibleProjects([ExampleC], All, "go") == [];
    assert VisibleProjects([ExampleB, ExampleC], All, "go") == [ExampleB];
  }

  /** Selecting category "Tools" keeps only the tools project. */
  lemma FilterByCategoryExample()
    ensures VisibleProjects([ExampleA, ExampleB, ExampleC], "Tools", All) == [ExampleC]
  {
    assert VisibleProjects([ExampleC], "Tools", All) == [ExampleC];
    assert VisibleProjects([ExampleB, ExampleC], "Tools", All) == [ExampleC];
  }

  /** Category "Web" with technology "python" keeps nothing. */
  lemma FilterByBothExample()
    ensures VisibleProjects([ExampleA, ExampleB, ExampleC], "Web", "python") == []
  {
    assert Lower("Go") != Lower("python") by { assert |Lower("Go")| != |Lower("python")|; }
    assert Lower("React") != Lower("python") by { assert Lower("React")[0] != Lower("python")[0]; }
    assert !Matches(ExampleA, "Web", "python") && !Matches(ExampleB, "Web", "python");
    assert VisibleProjects([ExampleC], "Web", "python") == [];
    assert VisibleProjects([ExampleB, ExampleC], "Web", "python") == [];
  }

  /**
   * A project with an empty category is counted under "Uncategorized", but
   * selecting that facet hides it: the filter compares the raw category.
   */
  lemma UncategorizedFacetHidesItsProjects(projects: seq<Project>, stack: string, p: Project)
    requires p in projects && p.category == ""
    ensures CategoryKey(p) in CategoryKeys(projects) && CategoryKey(p) == "Uncategorized"
    ensures p !in VisibleProjects(projects, "Uncategorized", stack)
  {
    var i :| 0 <= i < |projects| && projects[i] == p;
    assert CategoryKeys(projects)[i] == "Uncategorized";
    VisibleExactlyMatching(projects, "Uncategorized", stack, p);
  }

  // ---------------------------------------------------------------------
  // Filter state and the two filter bars

  /** The two selections, `filterCategory` and `filterStack`. */
  class FilterState {
    var category: string
    var stack: string

    /** Both selections start at "all". */
    constructor ()
      ensures category == All && stack == All
    {
      category := All;
      stack := All;
    }

    /** `setFilterCategory`: replaces the category selection only. */
    method SetCategory(value: string)
      modifies this
      ensures category == value && stack == old(stack)
    {
      category := value;
    }

    /** `setFilterStack`: replaces the stack selection only. */
    method SetStack(value: string)
      modifies this
      ensures stack == value && category == old(category)
    {
      stack := value;
    }
  }

  /** The two filter bars, and the setter each one is given as `onChange`. */
  datatype Bar = CategoryBar | StackBar

  /** `onChange(value)` of one bar. */
  method Select(state: FilterState, bar: Bar, value: string)
    modifies state
    ensures bar == CategoryBar ==> state.category == value && state.stack == old(state.stack)
    ensures bar == StackBar ==> state.stack == value && state.category == old(state.category)
  {
    match bar
    case CategoryBar => state.SetCategory(value);
    case StackBar => state.SetStack(value);
  }

  /** A key press on one of a bar's buttons. */
  method PressKey(state: FilterState, bar: Bar, key: string, option: FilterOption)
    modifies state
    ensures key == "Enter" || key == " " ==>
      if bar == CategoryBar then state.category == option.value && state.stack == old(state.stack)
      else state.stack == option.value && state.category == old(state.category)
    ensures key != "Enter" && key != " " ==>
      state.category == old(state.category) && state.stack == old(state.stack)
  {
    match KeyActivation(key, option)
    case Some(value) => Select(state, bar, value);
    case None =>
  }

  /** A click on one of a bar's buttons. */
  method ClickButton(state: FilterState, bar: Bar, option: FilterOption)
    modifies state
    ensures bar == CategoryBar ==> state.category == option.value && state.stack == old(state.stack)
    ensures bar == StackBar ==> state.stack == option.value && state.category == old(state.category)
  {
    Select(state, bar, Click(option));
  }
}
