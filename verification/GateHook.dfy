/** Whether a settings file's gate hooks are README's: `matcher_names`, `judge` and `set_reasons` of
    scripts/gate-hook.py. */
module GateHook {
  import opened Json
  import opened Option
  import opened Text

  /** README's command line, taken as data. */
  datatype Readme = Readme(command: string, legacy: string)

  const NEEDED: seq<string> := ["Edit", "Write", "NotebookEdit", "Bash"]

  // ------------------------------------------------------------------ matchers

  datatype Names = Every | Exactly(names: set<string>) | Unreadable

  predicate IsListChar(c: char) {
    || 'A' <= c <= 'Z' || 'a' <= c <= 'z' || '0' <= c <= '9'
    || c == '_' || c == '-' || c == ' ' || c == ',' || c == '|'
  }

  predicate IsList(m: string) { m != "" && forall c | c in m :: IsListChar(c) }

  predicate IsBar(c: char) { c == '|' || c == ',' }

  function StripLeft(s: string): string {
    if s != "" && s[0] == ' ' then StripLeft(s[1..]) else s
  }

  function StripRight(s: string): string {
    if s != "" && s[|s| - 1] == ' ' then StripRight(s[..|s| - 1]) else s
  }

  /** `s.strip()`, where the only white space is the space. */
  function Strip(s: string): string { StripRight(StripLeft(s)) }

  function Stripped(parts: seq<string>): set<string> {
    set p | p in parts :: Strip(p)
  }

  /** The names of a list, split at `|` and `,`. */
  function Named(list: string): set<string> { Stripped(SplitBy(list, IsBar)) }

  /** The tools a matcher selects: null is an absent matcher. */
  function MatcherNames(m: Json): Names {
    if m.Null? || m == Str("") || m == Str("*") then Every
    else if !m.Str? || !IsList(m.text) then Unreadable
    else Exactly(Named(m.text))
  }

  // ---------------------------------------------------------------- one hook

  type Hook = map<string, Json>

  /** What a hook says against itself; none for README's own. */
  datatype Reason = CommandDiffers | NotACommand | NotBlocking | NoTimeout | Async | IfRule | ExecForm | ShellSet

  predicate TimeoutFits(t: Json) { t.Num? && 1.0 <= t.number <= 600.0 }

  function Flag(on: bool, reason: Reason): seq<Reason> { if on then [reason] else [] }

  /** `judge` for a hook that is not the legacy one: each rule it breaks, in order. */
  function Judged(h: Hook, readme: Readme): seq<Reason> { JudgedRun(h, readme) + JudgedKeys(h) }

  /** What it runs, and how. */
  function JudgedRun(h: Hook, readme: Readme): seq<Reason> {
    Flag(Get(h, "command") != Str(readme.command), CommandDiffers) + Flag(Get(h, "type") != Str("command"), NotACommand)
    + Flag(Get(h, "onFailure") != Str("block"), NotBlocking) + Flag(!TimeoutFits(Get(h, "timeout")), NoTimeout)
    + Flag(Get(h, "async") == Bool(true) || Get(h, "asyncRewake") == Bool(true), Async)
  }

  /** Three keys of a hook that alter its run. */
  function JudgedKeys(h: Hook): seq<Reason> {
    Flag("if" in h, IfRule) + Flag("args" in h, ExecForm) + Flag("shell" in h, ShellSet)
  }

  datatype Verdict = Legacy | Reasons(why: seq<Reason>)

  predicate IsLegacy(h: Hook, readme: Readme) { Get(h, "command") == Str(readme.legacy) }

  method Judge(h: Hook, readme: Readme) returns (v: Verdict)
    ensures v.Legacy? <==> Get(h, "command") == Str(readme.legacy)
    ensures v.Reasons? ==> v.why == Judged(h, readme) && forall x :: x in v.why <==> Breaks(h, readme, x)
    ensures v == Reasons([]) <==> IsReadmeHook(h, readme) && !IsLegacy(h, readme)
  {
    if Get(h, "command") == Str(readme.legacy) {
      return Legacy;
    }
    var why := Flag(Get(h, "command") != Str(readme.command), CommandDiffers);
    why := why + Flag(Get(h, "type") != Str("command"), NotACommand);
    why := why + Flag(Get(h, "onFailure") != Str("block"), NotBlocking);
    why := why + Flag(!TimeoutFits(Get(h, "timeout")), NoTimeout);
    why := why + Flag(Get(h, "async") == Bool(true) || Get(h, "asyncRewake") == Bool(true), Async);
    why := why + Flag("if" in h, IfRule);
    why := why + Flag("args" in h, ExecForm);
    why := why + Flag("shell" in h, ShellSet);
    assert why == Judged(h, readme) by { KeysComeLast(h, readme); }
    JudgedMeans(h, readme);
    CleanHookIsReadmes(h, readme);
    return Reasons(why);
  }

  /** The rule a reason speaks of, broken by this hook. */
  predicate Breaks(h: Hook, readme: Readme, reason: Reason) {
    match reason
    case CommandDiffers => Get(h, "command") != Str(readme.command)
    case NotACommand => Get(h, "type") != Str("command")
    case NotBlocking => Get(h, "onFailure") != Str("block")
    case NoTimeout => var t := Get(h, "timeout"); !(t.Num? && 1.0 <= t.number <= 600.0)
    case Async => Get(h, "async") == Bool(true) || Get(h, "asyncRewake") == Bool(true)
    case IfRule => "if" in h
    case ExecForm => "args" in h
    case ShellSet => "shell" in h
  }

  lemma JudgedMeans(h: Hook, readme: Readme)
    ensures forall x :: x in Judged(h, readme) <==> Breaks(h, readme, x)
  {
    hide Judged, Breaks;
    forall x ensures x in Judged(h, readme) <==> Breaks(h, readme, x) {
      JudgedHolds(h, readme, x);
    }
  }

  lemma KeysComeLast(h: Hook, readme: Readme)
    ensures Judged(h, readme) ==
            JudgedRun(h, readme) + Flag("if" in h, IfRule) + Flag("args" in h, ExecForm) + Flag("shell" in h, ShellSet)
  {
    hide JudgedRun, Flag;
    var run, a, b, c := JudgedRun(h, readme), Flag("if" in h, IfRule), Flag("args" in h, ExecForm), Flag("shell" in h, ShellSet);
    assert run + (a + b + c) == run + a + b + c;
  }

  lemma JudgedHolds(h: Hook, readme: Readme, x: Reason)
    ensures x in Judged(h, readme) <==> Breaks(h, readme, x)
  {
    hide JudgedRun, JudgedKeys;
    RunHolds(h, readme, x);
    KeysHold(h, readme, x);
  }

  predicate IsKeyRule(x: Reason) { x.IfRule? || x.ExecForm? || x.ShellSet? }

  lemma RunHolds(h: Hook, readme: Readme, x: Reason)
    ensures x in JudgedRun(h, readme) <==> !IsKeyRule(x) && Breaks(h, readme, x)
  {
    hide Get;
  }

  lemma KeysHold(h: Hook, readme: Readme, x: Reason)
    ensures x in JudgedKeys(h) <==> IsKeyRule(x) && Breaks(h, readme, x)
  {
    hide Get;
  }

  /** README's command, run as a shell command that blocks on failure within a bounded time, on every call. */
  predicate IsReadmeHook(h: Hook, readme: Readme) {
    && Get(h, "command") == Str(readme.command) && Get(h, "type") == Str("command")
    && Get(h, "onFailure") == Str("block")
    && Get(h, "timeout").Num? && 1.0 <= Get(h, "timeout").number <= 600.0
    && Get(h, "async") != Bool(true) && Get(h, "asyncRewake") != Bool(true)
    && "if" !in h && "args" !in h && "shell" !in h
  }

  lemma CleanHookIsReadmes(h: Hook, readme: Readme)
    ensures Judged(h, readme) == [] <==> IsReadmeHook(h, readme)
  {
    hide Judged;
    var why := Judged(h, readme);
    JudgedMeans(h, readme);
    if why == [] {
      assert forall x :: !Breaks(h, readme, x);
      assert !Breaks(h, readme, CommandDiffers) && !Breaks(h, readme, NotACommand) && !Breaks(h, readme, NotBlocking);
      assert !Breaks(h, readme, NoTimeout) && !Breaks(h, readme, Async) && !Breaks(h, readme, IfRule);
      assert !Breaks(h, readme, ExecForm) && !Breaks(h, readme, ShellSet);
    } else {
      assert why[0] in why;
    }
  }

  // ------------------------------------------------------------------ the set

  /** A gate entry: its matcher and what its hook says against itself. */
  datatype Entry = Entry(matcher: Json, why: seq<Reason>)

  datatype Complaint = Clean | Hooked(why: seq<Reason>) | Matcher(m: Json) | Misses(names: seq<string>) | Disabled

  function FirstComplaint(entries: seq<Entry>): seq<Reason> {
    if entries == [] then [] else if entries[0].why != [] then entries[0].why else FirstComplaint(entries[1..])
  }

  function Missing(needed: seq<string>, names: set<string>): seq<string> {
    if needed == [] then []
    else (if needed[0] in names then [] else [needed[0]]) + Missing(needed[1..], names)
  }

  /** Every tool some entry's matcher selects, taking the readable ones. */
  function Selected(entries: seq<Entry>): set<string> {
    set e, n | e in entries && MatcherNames(e.matcher).Exactly? && n in MatcherNames(e.matcher).names :: n
  }

  predicate SelectsEvery(entries: seq<Entry>) { exists e | e in entries :: MatcherNames(e.matcher).Every? }

  /** `set_reasons` on a set of hooks that are not the legacy one. */
  method SetReasons(entries: seq<Entry>, disabled: bool) returns (r: Complaint)
    ensures r.Clean? <==> Covered(entries, disabled)
    ensures r.Hooked? ==> r.why != [] && exists e | e in entries :: e.why == r.why
    ensures r.Matcher? ==> exists e | e in entries :: e.matcher == r.m && MatcherNames(r.m).Unreadable?
    ensures r.Misses? ==>
              && r.names != [] && !SelectsEvery(entries)
              && forall n :: n in r.names <==> n in NEEDED && n !in Selected(entries)
    ensures r.Disabled? ==> disabled
  {
    FirstComplaintIsExact(entries);
    var why := FirstComplaint(entries);
    if why != [] {
      return Hooked(why);
    }
    var bad, names, every := Union(entries);
    if bad.Some? {
      return Matcher(bad.value);
    }
    var gaps := if every then [] else Missing(NEEDED, names);
    MissingIsExact(NEEDED, names);
    if gaps != [] {
      assert gaps[0] in gaps;
      return Misses(gaps);
    }
    return if disabled then Disabled else Clean;
  }

  /** The names every entry's matcher selects together, unless one cannot be read. */
  method Union(entries: seq<Entry>) returns (bad: Option<Json>, names: set<string>, every: bool)
    ensures bad.Some? ==> MatcherNames(bad.value).Unreadable? && exists e | e in entries :: e.matcher == bad.value
    ensures bad.None? ==>
              && (forall e | e in entries :: !MatcherNames(e.matcher).Unreadable?)
              && names == Selected(entries) && every == SelectsEvery(entries)
  {
    hide MatcherNames, Selected, SelectsEvery;
    names, every := {}, false;
    NothingSelected();
    for i := 0 to |entries|
      invariant names == Selected(entries[..i]) && every == SelectsEvery(entries[..i])
      invariant forall j | 0 <= j < i :: !MatcherNames(entries[j].matcher).Unreadable?
    {
      assert entries[..i + 1] == entries[..i] + [entries[i]];
      SelectedGrows(entries[..i], entries[i]);
      match MatcherNames(entries[i].matcher)
      case Unreadable => return Some(entries[i].matcher), names, every;
      case Every => every := true;
      case Exactly(more) => names := names + more;
    }
    assert entries[..|entries|] == entries;
    return None, names, every;
  }

  /** The set gates what README's one entry gates: every hook is README's, every matcher is read, and
      every needed tool is selected by some entry. */
  predicate Covered(entries: seq<Entry>, disabled: bool) {
    !disabled && AllClean(entries) && forall n | n in NEEDED :: SelectsEvery(entries) || n in Selected(entries)
  }

  predicate AllClean(entries: seq<Entry>) {
    forall e | e in entries :: e.why == [] && !MatcherNames(e.matcher).Unreadable?
  }

  lemma {:induction false} FirstComplaintIsExact(entries: seq<Entry>)
    ensures FirstComplaint(entries) == [] <==> forall e | e in entries :: e.why == []
    ensures FirstComplaint(entries) != [] ==> exists e | e in entries :: e.why == FirstComplaint(entries)
  {
    if entries == [] {
    } else {
      FirstComplaintIsExact(entries[1..]);
      assert entries == [entries[0]] + entries[1..];
    }
  }

  lemma {:induction false} MissingIsExact(needed: seq<string>, names: set<string>)
    ensures forall n :: n in Missing(needed, names) <==> n in needed && n !in names
    ensures Missing(needed, names) == [] <==> forall n | n in needed :: n in names
  {
    if needed == [] {
    } else {
      MissingIsExact(needed[1..], names);
      assert needed == [needed[0]] + needed[1..];
    }
  }

  lemma NothingSelected()
    ensures Selected([]) == {} && !SelectsEvery([])
  {}

  lemma SelectedGrows(entries: seq<Entry>, e: Entry)
    ensures var m := MatcherNames(e.matcher);
            Selected(entries + [e]) == Selected(entries) + (if m.Exactly? then m.names else {})
    ensures SelectsEvery(entries + [e]) <==> SelectsEvery(entries) || MatcherNames(e.matcher).Every?
  {
    hide MatcherNames;
    assert forall x :: x in entries + [e] <==> x in entries || x == e;
  }

  // ------------------------------------------------------------- the whole file

  /** A settings file's gate hooks, each with the matcher it stands under. */
  type Gate = (Json, Hook)

  /** What `set_reasons` is given: the judged hooks that are not the legacy one. */
  function Others(gates: seq<Gate>, readme: Readme): seq<Entry> {
    if gates == [] then []
    else
      (if IsLegacy(gates[0].1, readme) then [] else [Entry(gates[0].0, Judged(gates[0].1, readme))])
      + Others(gates[1..], readme)
  }

  predicate Selects(m: Json, tool: string) {
    MatcherNames(m).Every? || (MatcherNames(m).Exactly? && tool in MatcherNames(m).names)
  }

  lemma {:induction false} OthersHold(gates: seq<Gate>, readme: Readme)
    ensures forall e :: e in Others(gates, readme) <==>
              exists g :: g in gates && !IsLegacy(g.1, readme) && e == Entry(g.0, Judged(g.1, readme))
  {
    hide Judged, IsLegacy;
    if gates == [] {
    } else {
      OthersHold(gates[1..], readme);
      assert gates == [gates[0]] + gates[1..];
    }
  }

  /** No reason is left exactly when hooks are on, every hook but the legacy one is README's under a
      matcher that is read, and each needed tool is selected for one of them. */
  lemma CleanSetIsReadmes(gates: seq<Gate>, readme: Readme, disabled: bool)
    ensures Covered(Others(gates, readme), disabled) <==>
            && !disabled
            && (forall g | g in gates && !IsLegacy(g.1, readme) ::
                  IsReadmeHook(g.1, readme) && !MatcherNames(g.0).Unreadable?)
            && (forall tool | tool in NEEDED :: exists g :: g in gates && !IsLegacy(g.1, readme) && Selects(g.0, tool))
  {
    hide IsReadmeHook, MatcherNames, IsLegacy, Judged, AllClean;
    var entries := Others(gates, readme);
    OthersHold(gates, readme);
    CleanIsReadmes(gates, entries, readme);
    forall tool
      ensures (SelectsEvery(entries) || tool in Selected(entries)) <==>
              exists g :: g in gates && !IsLegacy(g.1, readme) && Selects(g.0, tool)
    {
      if g :| g in gates && !IsLegacy(g.1, readme) && Selects(g.0, tool) {
        assert Entry(g.0, Judged(g.1, readme)) in entries;
      }
    }
  }

  lemma CleanIsReadmes(gates: seq<Gate>, entries: seq<Entry>, readme: Readme)
    requires forall e :: e in entries <==>
               exists g :: g in gates && !IsLegacy(g.1, readme) && e == Entry(g.0, Judged(g.1, readme))
    ensures AllClean(entries) <==>
            forall g | g in gates && !IsLegacy(g.1, readme) :: IsReadmeHook(g.1, readme) && !MatcherNames(g.0).Unreadable?
  {
    hide IsReadmeHook, MatcherNames, IsLegacy, Judged;
    forall g | g in gates && !IsLegacy(g.1, readme)
      ensures Entry(g.0, Judged(g.1, readme)) in entries
      ensures Judged(g.1, readme) == [] <==> IsReadmeHook(g.1, readme)
    {
      CleanHookIsReadmes(g.1, readme);
    }
  }

  // ----------------------------------------------------------------- splitting

  /** A list of names in two parts selects what the two parts select. */
  lemma JoinedMatcherSelectsBoth(a: string, bar: char, b: string)
    requires IsList(a) && IsList(b) && IsBar(bar)
    ensures MatcherNames(Str(a + [bar] + b)) == Exactly(Named(a) + Named(b))
    ensures MatcherNames(Str(a)) == Exactly(Named(a)) && MatcherNames(Str(b)) == Exactly(Named(b))
  {
    hide SplitBy, Strip, IsListChar;
    SplitOfJoin(a, bar, b, IsBar);
    BarIsListed(bar);
    StarIsNoList();
    var s := a + [bar] + b;
    assert forall c | c in s :: c in a || c == bar || c in b;
    assert |s| > 1;
    assert forall p :: p in SplitBy(s, IsBar) <==> p in SplitBy(a, IsBar) || p in SplitBy(b, IsBar);
  }

  lemma BarIsListed(c: char)
    requires IsBar(c)
    ensures IsListChar(c)
  {}

  lemma StarIsNoList()
    ensures !IsList("*")
  {
    assert '*' in "*";
  }

  /** Splitting one entry's name list over two entries with the same hook keeps the verdict, clean or not. */
  lemma SplittingKeepsCoverage(pre: seq<Entry>, a: string, bar: char, b: string, why: seq<Reason>, post: seq<Entry>, disabled: bool)
    requires IsList(a) && IsList(b) && IsBar(bar)
    ensures Covered(pre + [Entry(Str(a + [bar] + b), why)] + post, disabled) <==>
            Covered(pre + [Entry(Str(a), why), Entry(Str(b), why)] + post, disabled)
  {
    hide MatcherNames, Named;
    JoinedMatcherSelectsBoth(a, bar, b);
    var e, e1, e2 := Entry(Str(a + [bar] + b), why), Entry(Str(a), why), Entry(Str(b), why);
    SelectedAround(pre, [e], post);
    SelectedAround(pre, [e1, e2], post);
    OneEntry(e);
    OneEntry(e1);
    OneEntry(e2);
    SelectedAround([e1], [e2], []);
    assert [e1] + [e2] + [] == [e1, e2];
    assert Selected([]) == {} && !SelectsEvery([]) && AllClean([]);
  }

  lemma OneEntry(e: Entry)
    ensures Selected([e]) == (if MatcherNames(e.matcher).Exactly? then MatcherNames(e.matcher).names else {})
    ensures SelectsEvery([e]) == MatcherNames(e.matcher).Every?
    ensures AllClean([e]) == (e.why == [] && !MatcherNames(e.matcher).Unreadable?)
  {
    hide MatcherNames;
    assert e in [e];
  }

  /** Name lists joined into one, a bar between neighbours. */
  function Joined(lists: seq<string>, bars: seq<char>): string
    requires |lists| == |bars| + 1
  {
    if bars == [] then lists[0] else lists[0] + [bars[0]] + Joined(lists[1..], bars[1..])
  }

  /** One entry for each list, all with the same hook. */
  function Each(lists: seq<string>, why: seq<Reason>): seq<Entry> {
    if lists == [] then [] else [Entry(Str(lists[0]), why)] + Each(lists[1..], why)
  }

  lemma {:induction false} JoinedIsList(lists: seq<string>, bars: seq<char>)
    requires |lists| == |bars| + 1 && (forall l | l in lists :: IsList(l)) && (forall b | b in bars :: IsBar(b))
    ensures IsList(Joined(lists, bars))
  {
    if bars == [] {
    } else {
      JoinedIsList(lists[1..], bars[1..]);
      BarIsListed(bars[0]);
      ListsJoin(lists[0], bars[0], Joined(lists[1..], bars[1..]));
    }
  }

  lemma ListsJoin(a: string, bar: char, b: string)
    requires IsList(a) && IsListChar(bar) && IsList(b)
    ensures IsList(a + [bar] + b)
  {
    hide IsListChar;
    assert forall c | c in a + [bar] + b :: c in a || c == bar || c in b;
  }

  /** Splitting one entry's name list over any number of entries with the same hook keeps
      the verdict. */
  lemma {:induction false} SplittingOverManyKeepsCoverage(
      pre: seq<Entry>, lists: seq<string>, bars: seq<char>, why: seq<Reason>, post: seq<Entry>, disabled: bool)
    requires |lists| == |bars| + 1 && (forall l | l in lists :: IsList(l)) && (forall b | b in bars :: IsBar(b))
    ensures Covered(pre + [Entry(Str(Joined(lists, bars)), why)] + post, disabled) <==>
            Covered(pre + Each(lists, why) + post, disabled)
    decreases |lists|
  {
    hide Covered, IsList, IsBar;
    var first := Entry(Str(lists[0]), why);
    if bars == [] {
      assert Each(lists[1..], why) == [] && Each(lists, why) == [first];
    } else {
      var rest := Joined(lists[1..], bars[1..]);
      JoinedIsList(lists[1..], bars[1..]);
      SplittingKeepsCoverage(pre, lists[0], bars[0], rest, why, post, disabled);
      SplittingOverManyKeepsCoverage(pre + [first], lists[1..], bars[1..], why, post, disabled);
      var last := Entry(Str(rest), why);
      assert pre + [first, last] + post == pre + [first] + [last] + post;
      assert pre + [first] + Each(lists[1..], why) + post == pre + ([first] + Each(lists[1..], why)) + post;
    }
  }

  lemma SelectedAround(pre: seq<Entry>, mid: seq<Entry>, post: seq<Entry>)
    ensures Selected(pre + mid + post) == Selected(pre) + Selected(mid) + Selected(post)
    ensures SelectsEvery(pre + mid + post) == (SelectsEvery(pre) || SelectsEvery(mid) || SelectsEvery(post))
    ensures AllClean(pre + mid + post) == (AllClean(pre) && AllClean(mid) && AllClean(post))
  {
    hide MatcherNames;
    assert forall x :: x in pre + mid + post <==> x in pre || x in mid || x in post;
  }
}
