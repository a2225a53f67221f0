/** Which platforms a Go source file is built on: the direct check, and the
    classification that lets it be evaluated per OS, per arch, or not at all. */
module FileConstraints {
  import opened BuildConstraints
  import opened Platforms
  import opened Options

  /** The configuration the check reads. `genericTags` holds the tags set by the
      user; `oldRulesGo` says that a rules_go version before 0.23.0 is in use. */
  datatype Config = Config(
    tables: Tables,
    osAliases: map<string, seq<string>>,
    unixOS: set<string>,
    genericTags: set<string>,
    oldRulesGo: bool)

  /** File-name suffixes and the constraint at the top of the file. */
  datatype FileInfo = FileInfo(goos: string, goarch: string, tags: Option<BuildTags>)

  /** Options under a constraint of a "#cgo" line. */
  datatype CgoTagsAndOpts = CgoTagsAndOpts(buildTags: Option<BuildTags>, opts: string)

  function Tags(b: Option<BuildTags>): seq<string> {
    if b.None? then [] else b.value.rawTags
  }

  function CgoTags(c: Option<CgoTagsAndOpts>): seq<string> {
    if c.None? then [] else Tags(c.value.buildTags)
  }

  function EvalTags(b: Option<BuildTags>, ok: Valuation): bool {
    b.None? || Eval(b.value.expr, ok)
  }

  function EvalCgo(c: Option<CgoTagsAndOpts>, ok: Valuation): bool {
    c.None? || EvalTags(c.value.buildTags, ok)
  }

  /** The form every stored constraint has: it was built by NewBuildTags. */
  ghost predicate Stored(b: Option<BuildTags>) {
    b.Some? ==> exists x :: b.value == NewBuildTags(x)
  }

  ghost predicate ValidInput(info: FileInfo, cgoTags: Option<CgoTagsAndOpts>) {
    Stored(info.tags) && (cgoTags.Some? ==> Stored(cgoTags.value.buildTags))
  }

  predicate IsOSTag(c: Config, tag: string) {
    tag in c.tables.osSet || tag == "unix"
  }

  predicate IsArchTag(c: Config, tag: string) {
    !IsOSTag(c, tag) && tag in c.tables.archSet
  }

  predicate MatchesOS(c: Config, os: string, value: string) {
    if os == value then true
    else if value == "unix" then os in c.unixOS
    else value in Lookup(c.osAliases, os)
  }

  /** The truth of one tag on a platform; an empty os or arch fails every OS or arch tag. */
  predicate Checker(c: Config, os: string, arch: string, tag: string) {
    if IsDefaultIgnoredTag(tag) then true
    else if IsOSTag(c, tag) then os != "" && MatchesOS(c, os, tag)
    else if tag in c.tables.archSet then arch != "" && arch == tag
    else tag in c.genericTags
  }

  function CheckerFor(c: Config, os: string, arch: string): Valuation {
    tag => Checker(c, os, arch, tag)
  }

  function Generic(c: Config): Valuation {
    tag => tag in c.genericTags
  }

  predicate CheckConstraints(c: Config, os: string, arch: string, info: FileInfo, cgoTags: Option<CgoTagsAndOpts>) {
    if (info.goos != "" && !MatchesOS(c, os, info.goos)) || (info.goarch != "" && info.goarch != arch) then false
    else
      var tags := if info.tags.None? then None else Some(NewBuildTags(DropNegation(info.tags.value.expr, Generic(c))));
      EvalTags(tags, CheckerFor(c, os, arch)) && EvalCgo(cgoTags, CheckerFor(c, os, arch))
  }

  // ---------------------------------------------------------- classification

  ghost predicate AnyOSTag(c: Config, tags: seq<string>) {
    exists t :: t in tags && IsOSTag(c, t)
  }

  ghost predicate AnyArchTag(c: Config, tags: seq<string>) {
    exists t :: t in tags && IsArchTag(c, t)
  }

  lemma AnyTagStep(c: Config, tags: seq<string>, tag: string)
    ensures AnyOSTag(c, tags + [tag]) <==> AnyOSTag(c, tags) || IsOSTag(c, tag)
    ensures AnyArchTag(c, tags + [tag]) <==> AnyArchTag(c, tags) || IsArchTag(c, tag)
  {
    assert forall t :: t in tags + [tag] <==> t in tags || t == tag;
    assert tag in tags + [tag];
  }

  ghost predicate OSSpecific(c: Config, info: FileInfo, cgoTags: Option<CgoTagsAndOpts>) {
    || info.goos != ""
    || AnyOSTag(c, Tags(info.tags))
    || AnyOSTag(c, CgoTags(cgoTags))
  }

  ghost predicate ArchSpecific(c: Config, info: FileInfo, cgoTags: Option<CgoTagsAndOpts>) {
    || info.goarch != ""
    || AnyArchTag(c, Tags(info.tags))
    || AnyArchTag(c, CgoTags(cgoTags))
  }

  method CheckTags(c: Config, tags: seq<string>, os0: bool, arch0: bool) returns (osSpecific: bool, archSpecific: bool)
    ensures osSpecific <==> os0 || AnyOSTag(c, tags)
    ensures archSpecific <==> arch0 || AnyArchTag(c, tags)
  {
    osSpecific, archSpecific := os0, arch0;
    for i := 0 to |tags|
      invariant osSpecific <==> os0 || AnyOSTag(c, tags[..i])
      invariant archSpecific <==> arch0 || AnyArchTag(c, tags[..i])
    {
      var tag := tags[i];
      assert tags[..i + 1] == tags[..i] + [tag];
      AnyTagStep(c, tags[..i], tag);
      if tag in c.tables.osSet || tag == "unix" {
        osSpecific := true;
      } else if tag in c.tables.archSet {
        archSpecific := true;
      }
    }
    assert tags[..|tags|] == tags;
  }

  method IsOSArchSpecific(c: Config, info: FileInfo, cgoTags: Option<CgoTagsAndOpts>)
    returns (osSpecific: bool, archSpecific: bool)
    ensures osSpecific <==> OSSpecific(c, info, cgoTags)
    ensures archSpecific <==> ArchSpecific(c, info, cgoTags)
  {
    osSpecific, archSpecific := info.goos != "", info.goarch != "";
    osSpecific, archSpecific := CheckTags(c, Tags(info.tags), osSpecific, archSpecific);
    if osSpecific && archSpecific {
      return;
    }
    osSpecific, archSpecific := CheckTags(c, CgoTags(cgoTags), osSpecific, archSpecific);
  }

  // ------------------------------------------ the classification is faithful

  lemma StoredTags(b: BuildTags)
    requires Stored(Some(b))
    ensures b.rawTags == CollectTags(b.expr) && NegationNormal(b.expr)
    ensures DropNegation(b.expr, IsDefaultIgnoredTag) == b.expr
  {
    var x :| b == NewBuildTags(x);
    NewBuildTagsIdempotent(x);
    PushNotFixesNormalForms(b.expr);
    PushNotIsNegationNormal(x, false);
    DropNegationKeepsShape(PushNot(x, false), IsDefaultIgnoredTag);
  }

  lemma RecheckedTags(c: Config, b: BuildTags)
    requires Stored(Some(b))
    ensures NewBuildTags(DropNegation(b.expr, Generic(c))) ==
            BuildTags(DropNegation(b.expr, Generic(c)), b.rawTags)
  {
    StoredTags(b);
    var d := DropNegation(b.expr, Generic(c));
    DropNegationKeepsShape(b.expr, Generic(c));
    PushNotFixesNormalForms(d);
    NoNegatedIgnored(b.expr, Generic(c));
    DropNegationKeepsShape(d, IsDefaultIgnoredTag);
  }

  /** Dropping the generic tags' negations leaves nothing for the default rule to drop. */
  lemma {:induction false} NoNegatedIgnored(e: Expr, generic: Valuation)
    requires NegationNormal(e) && DropNegation(e, IsDefaultIgnoredTag) == e
    ensures DropNegation(DropNegation(e, generic), IsDefaultIgnoredTag) == DropNegation(e, generic)
  {
    match e
    case Tag(_) =>
    case Not(x) =>
      assert DropNegation(x, generic) == x && DropNegation(x, IsDefaultIgnoredTag) == x;
    case And(l, r) => NoNegatedIgnored(l, generic); NoNegatedIgnored(r, generic);
    case Or(l, r) => NoNegatedIgnored(l, generic); NoNegatedIgnored(r, generic);
  }

  /** A constraint without OS tags has one value for all OSs, one without arch tags
      one value for all archs. */
  lemma TagsIgnoreOther(c: Config, b: Option<BuildTags>, os: string, arch: string, os': string, arch': string)
    requires b.Some? ==> b.value.rawTags == CollectTags(b.value.expr)
    requires os == os' || forall t | t in Tags(b) :: !IsOSTag(c, t)
    requires arch == arch' || forall t | t in Tags(b) :: !IsArchTag(c, t)
    ensures EvalTags(b, CheckerFor(c, os, arch)) == EvalTags(b, CheckerFor(c, os', arch'))
  {
    if b.Some? {
      forall t | t in CollectTags(b.value.expr) ensures Checker(c, os, arch, t) == Checker(c, os', arch', t) {
        assert t in Tags(b);
      }
      EvalDependsOnTags(b.value.expr, CheckerFor(c, os, arch), CheckerFor(c, os', arch'));
    }
  }

  /** The check may be made with the OS left out when the file is not OS specific,
      and likewise for the arch. */
  lemma ClassificationSound(c: Config, info: FileInfo, cgoTags: Option<CgoTagsAndOpts>, p: Platform)
    requires ValidInput(info, cgoTags)
    ensures CheckConstraints(c, p.os, p.arch, info, cgoTags) ==
            CheckConstraints(c,
                             if OSSpecific(c, info, cgoTags) then p.os else "",
                             if ArchSpecific(c, info, cgoTags) then p.arch else "",
                             info, cgoTags)
  {
    var os := if OSSpecific(c, info, cgoTags) then p.os else "";
    var arch := if ArchSpecific(c, info, cgoTags) then p.arch else "";
    if info.tags.Some? {
      RecheckedTags(c, info.tags.value);
      StoredTags(info.tags.value);
      DropNegationKeepsShape(info.tags.value.expr, Generic(c));
      TagsIgnoreOther(c, Some(NewBuildTags(DropNegation(info.tags.value.expr, Generic(c)))), os, arch, p.os, p.arch);
    }
    if cgoTags.Some? {
      if cgoTags.value.buildTags.Some? {
        StoredTags(cgoTags.value.buildTags.value);
      }
      TagsIgnoreOther(c, cgoTags.value.buildTags, os, arch, p.os, p.arch);
    }
  }

  // ------------------------------------------------ what the check promises

  /** Tags whose negation is dropped: the default ignored ones and the user's. */
  function Free(c: Config): Valuation {
    Either(IsDefaultIgnoredTag, Generic(c))
  }

  /** Tags of the user that name a platform: their negation is dropped, but they hold on
      that platform only. */
  function Closed(c: Config): Valuation {
    t => t in c.genericTags && !IsDefaultIgnoredTag(t) && (IsOSTag(c, t) || IsArchTag(c, t))
  }

  /** Tags the check leaves open. */
  function Open(c: Config): Valuation {
    t => Free(c)(t) && !Closed(c)(t)
  }

  /** The user's tags do not name a platform. */
  ghost predicate GenericTagsOpen(c: Config) {
    forall t | t in c.genericTags && !IsDefaultIgnoredTag(t) :: !IsOSTag(c, t) && !IsArchTag(c, t)
  }

  /** A constraint as the check reads it, before the open tags are dealt with: tags of
      the user that name a platform stand unnegated. */
  function Read(c: Config, x: Expr): Expr {
    DropNegation(PushNot(x, false), Closed(c))
  }

  predicate SuffixesMatch(c: Config, os: string, arch: string, info: FileInfo) {
    && (info.goos == "" || MatchesOS(c, os, info.goos))
    && (info.goarch == "" || info.goarch == arch)
  }

  lemma OpenTagsHold(c: Config, os: string, arch: string, t: string)
    requires Open(c)(t)
    ensures Checker(c, os, arch, t)
  {
    assert Free(c)(t) && !Closed(c)(t);
    assert IsDefaultIgnoredTag(t) || Generic(c)(t);
  }

  /** The check evaluates a constraint with all free tags' negations dropped. */
  lemma CheckIsDropped(c: Config, os: string, arch: string, info: FileInfo, x: Expr, cgoTags: Option<CgoTagsAndOpts>)
    requires info.tags == Some(NewBuildTags(x))
    ensures NegationNormal(Read(c, x))
    ensures CheckConstraints(c, os, arch, info, cgoTags) <==>
            && SuffixesMatch(c, os, arch, info) && EvalCgo(cgoTags, CheckerFor(c, os, arch))
            && Eval(DropNegation(Read(c, x), Open(c)), FreeHold(CheckerFor(c, os, arch), Open(c)))
  {
    var ok := CheckerFor(c, os, arch);
    var n := PushNot(x, false);
    assert info.tags.value == NewBuildTags(x);
    RecheckedTags(c, info.tags.value);
    PushNotIsNegationNormal(x, false);
    DropNegationKeepsShape(n, Closed(c));
    DropNegationCompose(n, IsDefaultIgnoredTag, Generic(c));
    DropNegationCompose(n, Closed(c), Open(c));
    DropNegationExtensional(n, Either(Closed(c), Open(c)), Free(c));
    forall t ensures FreeHold(ok, Open(c))(t) == ok(t) {
      if Open(c)(t) { OpenTagsHold(c, os, arch, t); }
    }
    EvalDependsOnTags(DropNegation(n, Free(c)), FreeHold(ok, Open(c)), ok);
  }

  /** On a platform, the check of a file with constraint `x` succeeds whenever its
      suffixes match, its "#cgo" constraint holds, and some assignment of the open
      tags satisfies `x` as the check reads it; and only then if no open tag occurs both
      plainly and negated in `x`. */
  lemma CheckIsExistential(c: Config, os: string, arch: string, info: FileInfo, x: Expr,
        cgoTags: Option<CgoTagsAndOpts>)
    requires info.tags == Some(NewBuildTags(x))
    ensures var ok := CheckerFor(c, os, arch);
            var side := SuffixesMatch(c, os, arch, info) && EvalCgo(cgoTags, ok);
            && (side && Satisfiable(Read(c, x), ok, Open(c)) ==> CheckConstraints(c, os, arch, info, cgoTags))
            && (OnePolarity(x, Open(c)) ==>
                (CheckConstraints(c, os, arch, info, cgoTags) <==> side && Satisfiable(Read(c, x), ok, Open(c))))
  {
    CheckIsDropped(c, os, arch, info, x, cgoTags);
    DropIsExistential(Read(c, x), CheckerFor(c, os, arch), Open(c));
    PushNotIsNegationNormal(x, false);
    DropKeepsOtherPolarity(PushNot(x, false), Closed(c), false, Open(c));
    DropKeepsOtherPolarity(PushNot(x, false), Closed(c), true, Open(c));
    PushNotKeepsPolarity(x, false, false, Open(c));
    PushNotKeepsPolarity(x, false, true, Open(c));
  }

  /** If the user's tags name no platform, a constraint is read as it is written and all
      tags whose negation is dropped are open. */
  lemma ReadAsWritten(c: Config, x: Expr, ok: Valuation)
    requires GenericTagsOpen(c)
    ensures Satisfiable(Read(c, x), ok, Open(c)) <==> Satisfiable(x, ok, Free(c))
    ensures OnePolarity(x, Open(c)) <==> OnePolarity(x, Free(c))
  {
    assert forall t :: !Closed(c)(t);
    DropNothing(PushNot(x, false), Closed(c));
    SatisfiableAfterPushNot(x, ok, Open(c));
    forall w: Valuation ensures AgreeOutside(w, ok, Open(c)) <==> AgreeOutside(w, ok, Free(c)) {
      forall t ensures Open(c)(t) == Free(c)(t) {}
    }
    SamePolarity(x, false, Open(c), Free(c));
    SamePolarity(x, true, Open(c), Free(c));
  }

  lemma {:induction false} DropNothing(e: Expr, none: Valuation)
    requires forall t :: !none(t)
    ensures DropNegation(e, none) == e
  {
    match e
    case Tag(_) =>
    case Not(x) => DropNothing(x, none);
    case And(l, r) => DropNothing(l, none); DropNothing(r, none);
    case Or(l, r) => DropNothing(l, none); DropNothing(r, none);
  }

  lemma {:induction false} SamePolarity(e: Expr, negated: bool, a: Valuation, b: Valuation)
    requires forall t :: a(t) == b(t)
    ensures FreeTags(e, negated, a) == FreeTags(e, negated, b)
  {
    match e
    case Tag(_) =>
    case Not(x) => SamePolarity(x, !negated, a, b);
    case And(l, r) => SamePolarity(l, negated, a, b); SamePolarity(r, negated, a, b);
    case Or(l, r) => SamePolarity(l, negated, a, b); SamePolarity(r, negated, a, b);
  }

  /** The check of a file with nothing but the constraint `x`. */
  predicate Checked(c: Config, os: string, arch: string, x: Expr) {
    CheckConstraints(c, os, arch, FileInfo("", "", Some(NewBuildTags(x))), None)
  }

  /** Some assignment of the tags whose negation is dropped satisfies `x`. */
  ghost predicate Possible(c: Config, os: string, arch: string, x: Expr) {
    Satisfiable(x, CheckerFor(c, os, arch), Free(c))
  }

  /** The check never excludes a file that could be built, exactly if the user's tags
      name no platform. Then it is exact for constraints that use each such tag in one
      polarity. */
  lemma GenericTagsOpenIff(c: Config)
    ensures GenericTagsOpen(c) <==>
            forall os, arch, x :: Possible(c, os, arch, x) ==> Checked(c, os, arch, x)
    ensures GenericTagsOpen(c) ==>
            forall os, arch, x | OnePolarity(x, Free(c)) :: Possible(c, os, arch, x) <==> Checked(c, os, arch, x)
  {
    if GenericTagsOpen(c) {
      forall os, arch, x
        ensures Possible(c, os, arch, x) ==> Checked(c, os, arch, x)
        ensures OnePolarity(x, Free(c)) ==> (Possible(c, os, arch, x) <==> Checked(c, os, arch, x))
      {
        ReadAsWritten(c, x, CheckerFor(c, os, arch));
        CheckIsExistential(c, os, arch, FileInfo("", "", Some(NewBuildTags(x))), x, None);
      }
    } else {
      var t :| t in c.genericTags && !IsDefaultIgnoredTag(t) && (IsOSTag(c, t) || IsArchTag(c, t));
      GenericPlatformTagInverts(c, "", "", t);
    }
  }

  /** A user tag that names an OS or arch: on every platform that it does not hold on, its
      negation is stored as the tag itself, and a file for such platforms is taken off
      them. */
  lemma GenericPlatformTagInverts(c: Config, os: string, arch: string, t: string)
    requires Closed(c)(t) && !Checker(c, os, arch, t)
    ensures var x := Not(Tag(t));
            Eval(x, CheckerFor(c, os, arch)) && Possible(c, os, arch, x) && !Checked(c, os, arch, x)
    ensures Checker(c, os, arch, t) <==>
            if IsOSTag(c, t) then os != "" && MatchesOS(c, os, t) else arch != "" && arch == t
  {
    var x := Not(Tag(t));
    var ok := CheckerFor(c, os, arch);
    assert t in c.genericTags && !IsDefaultIgnoredTag(t);
    assert PushNot(x, false) == x;
    assert DropNegation(x, IsDefaultIgnoredTag) == Not(DropNegation(Tag(t), IsDefaultIgnoredTag));
    assert NewBuildTags(x).expr == x;
    assert DropNegation(x, Generic(c)) == Tag(t);
    assert AgreeOutside(ok, ok, Free(c));
  }

  // ------------------------------------------------------------------- with no OS

  /** The truth of tags on a platform, but OS tags do not hold. */
  function NoOSHolds(c: Config, os: string, arch: string): Valuation {
    t => (IsDefaultIgnoredTag(t) || !IsOSTag(c, t)) && Checker(c, os, arch, t)
  }

  function Rechecked(c: Config, tags: Option<BuildTags>): Option<BuildTags> {
    if tags.None? then None else Some(NewBuildTags(DropNegation(tags.value.expr, Generic(c))))
  }

  /** The check with the OS left empty, for any file: it is the value of the constraints,
      on any OS, with all OS tags false. So plain ones fail, and negated ones hold. */
  lemma EmptyOSReadsOSTagsAsFalse(c: Config, os: string, arch: string, info: FileInfo, cgoTags: Option<CgoTagsAndOpts>)
    ensures CheckConstraints(c, "", arch, info, cgoTags) <==>
            && SuffixesMatch(c, "", arch, info)
            && EvalTags(Rechecked(c, info.tags), NoOSHolds(c, os, arch))
            && EvalCgo(cgoTags, NoOSHolds(c, os, arch))
  {
    SameValue(Rechecked(c, info.tags), CheckerFor(c, "", arch), NoOSHolds(c, os, arch));
    if cgoTags.Some? {
      SameValue(cgoTags.value.buildTags, CheckerFor(c, "", arch), NoOSHolds(c, os, arch));
    }
  }

  lemma SameValue(b: Option<BuildTags>, v: Valuation, w: Valuation)
    requires forall t :: v(t) == w(t)
    ensures EvalTags(b, v) == EvalTags(b, w)
  {
    if b.Some? {
      EvalDependsOnTags(b.value.expr, v, w);
    }
  }

  /** Leaving the OS empty is checking on an OS that the file does not name. */
  lemma EmptyOSIsAnother(c: Config, os: string, arch: string, info: FileInfo, cgoTags: Option<CgoTagsAndOpts>)
    requires ValidInput(info, cgoTags) && SuffixesMatch(c, "", arch, info) == SuffixesMatch(c, os, arch, info)
    requires forall t | (t in Tags(info.tags) || t in CgoTags(cgoTags)) && IsOSTag(c, t) :: !MatchesOS(c, os, t)
    ensures CheckConstraints(c, "", arch, info, cgoTags) == CheckConstraints(c, os, arch, info, cgoTags)
  {
    if info.tags.Some? {
      RecheckedTags(c, info.tags.value);
      StoredTags(info.tags.value);
      DropNegationKeepsShape(info.tags.value.expr, Generic(c));
      EvalDependsOnTags(Rechecked(c, info.tags).value.expr, CheckerFor(c, "", arch), CheckerFor(c, os, arch));
    }
    if cgoTags.Some? && cgoTags.value.buildTags.Some? {
      StoredTags(cgoTags.value.buildTags.value);
      EvalDependsOnTags(cgoTags.value.buildTags.value.expr, CheckerFor(c, "", arch), CheckerFor(c, os, arch));
    }
  }

  /** With the OS left empty a plain OS tag fails, but a negated one holds. */
  lemma EmptyOSFailsPlainTagsOnly(c: Config, arch: string, os: string)
    requires IsOSTag(c, os) && !IsDefaultIgnoredTag(os) && os !in c.genericTags
    ensures !Checked(c, "", arch, Tag(os)) && Checked(c, "", arch, Not(Tag(os)))
  {
    var plain, negated := Tag(os), Not(Tag(os));
    assert NewBuildTags(plain).expr == plain && NewBuildTags(negated).expr == negated;
    assert DropNegation(plain, Generic(c)) == plain && DropNegation(negated, Generic(c)) == negated;
  }

  // ---------------------------------------------------- single tags and suffixes

  /** An OS file-name suffix holds on exactly the OS it names and those that have it for
      an alias; "unix" on exactly those of its set. An arch suffix names one arch. */
  lemma SuffixIff(c: Config, os: string, arch: string, goos: string, goarch: string)
    ensures CheckConstraints(c, os, arch, FileInfo(goos, goarch, None), None) <==>
            && (|| goos == "" || goos == os
                || (goos == "unix" && os in c.unixOS)
                || (goos != "unix" && os in c.osAliases && goos in c.osAliases[os]))
            && (goarch == "" || goarch == arch)
  {
  }

  /** What a single tag comes to on a platform, and its negation. A tag whose negation is
      dropped comes to the same negated. */
  lemma CheckedTagIff(c: Config, os: string, arch: string, v: string)
    ensures var osTag := v in c.tables.osSet || v == "unix";
            var archTag := !osTag && v in c.tables.archSet;
            var named := os != "" && (|| v == os
                                      || (v == "unix" && os in c.unixOS)
                                      || (v != "unix" && os in c.osAliases && v in c.osAliases[os]));
            var holds := if IsDefaultIgnoredTag(v) then true
                         else if osTag then named
                         else if archTag then arch != "" && v == arch
                         else v in c.genericTags;
            && (Checked(c, os, arch, Tag(v)) <==> holds)
            && (Checked(c, os, arch, Not(Tag(v))) <==>
                if IsDefaultIgnoredTag(v) || v in c.genericTags then holds else !holds)
  {
    var plain, negated := Tag(v), Not(Tag(v));
    assert NewBuildTags(plain).expr == plain;
    assert PushNot(negated, false) == negated;
    if IsDefaultIgnoredTag(v) {
      assert NewBuildTags(negated).expr == plain;
    } else {
      assert DropNegation(negated, IsDefaultIgnoredTag) == Not(DropNegation(plain, IsDefaultIgnoredTag));
      assert NewBuildTags(negated).expr == negated;
      assert v !in c.genericTags ==> DropNegation(negated, Generic(c)) == Not(DropNegation(plain, Generic(c)));
    }
  }

  /** Aliases go one way: files for the alias are built on the OS that has it, but not the
      other way round. */
  lemma AliasIsOneWay(c: Config, os: string, v: string, arch: string)
    requires os in c.osAliases && v in c.osAliases[os] && v != os
    requires v in c.osAliases ==> os !in c.osAliases[v]
    requires os != "unix" && v != "unix" && os != "" && v != ""
    requires v in c.tables.osSet && !IsDefaultIgnoredTag(v) && os in c.tables.osSet && !IsDefaultIgnoredTag(os)
    ensures CheckConstraints(c, os, arch, FileInfo(v, "", None), None)
    ensures !CheckConstraints(c, v, arch, FileInfo(os, "", None), None)
    ensures Checked(c, os, arch, Tag(v)) && !Checked(c, v, arch, Tag(os))
  {
    CheckedTagIff(c, os, arch, v);
    CheckedTagIff(c, v, arch, os);
  }

  lemma AnyTagIff(c: Config, a: seq<string>, b: seq<string>)
    ensures AnyOSTag(c, a) || AnyOSTag(c, b) <==> exists t :: t in a + b && (t in c.tables.osSet || t == "unix")
    ensures AnyArchTag(c, a) || AnyArchTag(c, b) <==>
            exists t :: t in a + b && t in c.tables.archSet && t !in c.tables.osSet && t != "unix"
  {
    assert forall t :: t in a + b <==> t in a || t in b;
  }

  /** The classification, in terms of the constraint as it is written: a file is OS
      specific exactly if its name or a tag of its constraints names an OS. */
  lemma OSSpecificIff(c: Config, goos: string, goarch: string, x: Expr, y: Expr, opts: string)
    ensures var info := FileInfo(goos, goarch, Some(NewBuildTags(x)));
            var cgoTags := Some(CgoTagsAndOpts(Some(NewBuildTags(y)), opts));
            && (OSSpecific(c, info, cgoTags) <==>
                || goos != ""
                || exists t :: t in CollectTags(x) + CollectTags(y) && (t in c.tables.osSet || t == "unix"))
            && (ArchSpecific(c, info, cgoTags) <==>
                || goarch != ""
                || exists t :: t in CollectTags(x) + CollectTags(y)
                     && t in c.tables.archSet && t !in c.tables.osSet && t != "unix")
  {
    hide NewBuildTags, CollectTags;
    NewBuildTagsIdempotent(x);
    NewBuildTagsIdempotent(y);
    AnyTagIff(c, CollectTags(x), CollectTags(y));
  }
}
