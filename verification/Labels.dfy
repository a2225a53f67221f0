/** Bazel labels: the parser, the printer, and what each does to the other's output. */
module Labels {
  import opened Options
  import opened Paths

  datatype Label = Label(repo: string, pkg: string, name: string, relative: bool, canonical: bool)

  const NO_LABEL := Label("", "", "", false, false)

  datatype ParseError = RepoInvalid | PkgInvalid | NameEmpty | NameInvalid | PkgAndNameEmpty

  type ParseResult = Result<Label, ParseError>

  // ------------------------------------------------------ string operations

  /** Index of the first occurrence of `sub` in `s`, or -1. */
  function Index(s: string, sub: string): (i: int)
    ensures -1 <= i <= |s|
    ensures i >= 0 ==> i + |sub| <= |s| && s[i..i + |sub|] == sub
  {
    if sub <= s then 0
    else if s == [] then -1
    else
      var i := Index(s[1..], sub);
      assert i >= 0 ==> s[i + 1..i + 1 + |sub|] == s[1..][i..i + |sub|];
      if i < 0 then -1 else i + 1
  }

  ghost predicate At(s: string, sub: string, i: int) {
    0 <= i && i + |sub| <= |s| && s[i..i + |sub|] == sub
  }

  /** `i` is the first place where `sub` stands. */
  lemma {:induction false} IndexIsFirst(s: string, sub: string, i: nat)
    requires At(s, sub, i) && forall j | 0 <= j < i :: !At(s, sub, j)
    ensures Index(s, sub) == i
  {
    if i == 0 {
      assert sub <= s;
    } else {
      assert !At(s, sub, 0);
      assert s[0..|sub|] == s[..|sub|];
      assert !(sub <= s);
      forall j | 0 <= j < i - 1 ensures !At(s[1..], sub, j) {
        assert !At(s, sub, j + 1);
        if j + |sub| <= |s[1..]| {
          assert s[1..][j..j + |sub|] == s[j + 1..j + 1 + |sub|];
        }
      }
      assert s[1..][i - 1..i - 1 + |sub|] == s[i..i + |sub|];
      IndexIsFirst(s[1..], sub, i - 1);
    }
  }

  lemma IndexOfChar(s: string, c: char, i: nat)
    requires i < |s| && s[i] == c && c !in s[..i]
    ensures Index(s, [c]) == i
  {
    assert s[i..i + 1] == [c];
    forall j | 0 <= j < i ensures !At(s, [c], j) {
      assert s[..i][j] == s[j] == s[j..j + 1][0];
    }
    IndexIsFirst(s, [c], i);
  }

  lemma {:induction false} IndexAbsent(s: string, c: char)
    ensures Index(s, [c]) < 0 <==> c !in s
  {
    if s != [] && s[0] != c {
      IndexAbsent(s[1..], c);
    }
  }

  lemma {:induction false} IndexBefore(s: string, c: char)
    requires Index(s, [c]) >= 0
    ensures c !in s[..Index(s, [c])]
  {
    if s[0] != c {
      IndexBefore(s[1..], c);
      assert s[..Index(s, [c])] == [s[0]] + s[1..][..Index(s[1..], [c])];
    }
  }

  predicate RepoChar(c: char) {
    'A' <= c <= 'Z' || 'a' <= c <= 'z' || '0' <= c <= '9' || c in "_.~+-"
  }

  /** Characters of package and target names: printable, without ':' and '\'. */
  predicate NameChar(c: char) {
    ' ' <= c <= '~' && c != ':' && c != '\\'
  }

  predicate RepoOK(repo: string) {
    repo == "@" || forall c | c in repo :: RepoChar(c)
  }

  predicate NameOK(s: string) {
    forall c | c in s :: NameChar(c)
  }

  /** The characters that may stand in the parts of a label, by their codes. */
  lemma CharsIff(c: char)
    ensures var x := c as int;
            && (NameChar(c) <==> 0x20 <= x <= 0x39 || 0x3B <= x <= 0x5B || 0x5D <= x <= 0x7E)
            && (RepoChar(c) <==> || 0x30 <= x <= 0x39 || 0x41 <= x <= 0x5A || 0x61 <= x <= 0x7A
                                 || x == 0x2B || x == 0x2D || x == 0x2E || x == 0x5F || x == 0x7E)
  {
  }

  // ---------------------------------------------------------- parse and print

  /** The repository part: the name, and what is left of the label. */
  function SplitRepo(s: string): (string, string)
    requires "@" <= s
  {
    var endRepo := Index(s, "//");
    if endRepo > 1 then (s[1..endRepo], s[endRepo..])
    else if endRepo == 1 then (s[..1], s[1..])
    else (s[1..], "//:" + s[1..])
  }

  /** The package part of what starts with "//", and what is left. */
  function SplitPkg(s: string): (string, string)
    requires "//" <= s
  {
    var endPkg := Index(s, ":");
    if endPkg < 0 then (s[2..], "")
    else
      assert endPkg >= 2 by { assert s[0] == "//"[0] && s[1] == "//"[1]; }
      (s[2..endPkg], s[endPkg..])
  }

  function TrimColon(s: string): string {
    if ":" <= s then s[1..] else s
  }

  function Parse(orig: string): ParseResult {
    if "@@" <= orig then ParseBody(orig[1..], true) else ParseBody(orig, false)
  }

  function ParseBody(s: string, canonical: bool): ParseResult {
    var hasRepo := "@" <= s;
    var (repo, afterRepo) := if hasRepo then SplitRepo(s) else ("", s);
    if hasRepo && !RepoOK(repo) then Err(RepoInvalid)
    else ParseRest(repo, afterRepo, !hasRepo, canonical)
  }

  function ParseRest(repo: string, s: string, relative: bool, canonical: bool): ParseResult {
    var hasPkg := "//" <= s;
    var (pkg, rest) := if hasPkg then SplitPkg(s) else ("", s);
    if hasPkg && !NameOK(pkg) then Err(PkgInvalid)
    else if rest == ":" then Err(NameEmpty)
    else
      var name := TrimColon(rest);
      if !NameOK(name) then Err(NameInvalid)
      else if pkg == "" && name == "" then Err(PkgAndNameEmpty)
      else Ok(Label(repo, pkg, if name == "" then PathBase(pkg) else name, relative && !hasPkg, canonical))
  }

  /** The repository as it is printed. */
  function RepoString(l: Label): string {
    var repo := if l.repo != "" && l.repo != "@" then "@" + l.repo else l.repo;
    if l.canonical && "@" <= repo then "@" + repo else repo
  }

  function String(l: Label): string {
    if l.relative then ":" + l.name
    else if PathBase(l.pkg) == l.name then RepoString(l) + "//" + l.pkg
    else RepoString(l) + "//" + l.pkg + ":" + l.name
  }

  /** Makes a relative label absolute. */
  function Abs(l: Label, repo: string, pkg: string): Label {
    if !l.relative then l else Label(repo, pkg, l.name, false, false)
  }

  /** Equality as callers test it: the canonical flag is not compared. */
  predicate Equal(a: Label, b: Label) {
    a.repo == b.repo && a.pkg == b.pkg && a.name == b.name && a.relative == b.relative
  }

  // -------------------------------------------------------------- round trip

  /** The labels the parser produces. */
  ghost predicate WellFormed(l: Label) {
    && RepoOK(l.repo) && NameOK(l.pkg) && NameOK(l.name) && l.name != ""
    && (l.relative ==> l.repo == "" && l.pkg == "" && !l.canonical)
    && (l.canonical ==> l.repo != "")
  }

  /** The one form of label that is printed without its name and cannot be read back. */
  predicate NameLost(l: Label) {
    !l.relative && l.pkg == "" && l.name == "."
  }

  lemma {:induction false} TrimmedIsPrefix(p: string)
    ensures StripSlashes(p) <= p
    ensures StripSlashes(p) != "" ==> StripSlashes(p)[|StripSlashes(p)| - 1] != '/'
  {
    if p != [] && p[|p| - 1] == '/' {
      TrimmedIsPrefix(p[..|p| - 1]);
    }
  }

  lemma {:induction false} AfterLastSlashIsPart(p: string)
    ensures forall c | c in AfterLastSlash(p) :: c in p
  {
    if p != [] && p[|p| - 1] != '/' {
      AfterLastSlashIsPart(p[..|p| - 1]);
    }
  }

  lemma PathBaseIsName(p: string)
    requires NameOK(p)
    ensures NameOK(PathBase(p)) && PathBase(p) != ""
  {
    if p != "" {
      TrimmedIsPrefix(p);
      AfterLastSlashIsPart(StripSlashes(p));
    }
  }

  lemma ParseRestWellFormed(repo: string, s: string, relative: bool, canonical: bool)
    requires RepoOK(repo) && (relative ==> repo == "" && !canonical)
    requires canonical ==> repo != ""
    requires !relative ==> "//" <= s
    ensures ParseRest(repo, s, relative, canonical).Ok? ==> WellFormed(ParseRest(repo, s, relative, canonical).value)
  {
    if "//" <= s {
      var pkg := SplitPkg(s).0;
      if NameOK(pkg) {
        PathBaseIsName(pkg);
      }
    }
  }

  lemma EmptyRepoRejected(relative: bool, canonical: bool)
    ensures ParseRest("", "//:", relative, canonical) == Err(NameEmpty)
  {
    IndexOfChar("//:", ':', 2);
    assert "//:"[2..2] == "" && "//:"[2..] == ":";
  }

  /** Whatever string the parser accepts, the label it returns is well formed. */
  lemma ParseWellFormed(s: string)
    ensures Parse(s).Ok? ==> WellFormed(Parse(s).value)
  {
    var canonical := "@@" <= s;
    var t := if canonical then s[1..] else s;
    if canonical {
      assert t[0] == s[1] == "@@"[1];
      assert "@" <= t;
    }
    if "@" <= t {
      var (repo, rest) := SplitRepo(t);
      if Index(t, "//") == 1 {
        assert t[1..3] == "//";
        assert rest[..2] == t[1..3];
        assert repo == "@";
      } else if Index(t, "//") > 1 {
        var i := Index(t, "//");
        assert rest[..2] == t[i..i + 2];
      } else {
        assert Index(t, "//") != 0 by { assert t[0] == '@'; }
      }
      assert "//" <= rest;
      if RepoOK(repo) {
        if repo == "" {
          assert rest == "//:";
          EmptyRepoRejected(false, canonical);
        } else {
          ParseRestWellFormed(repo, rest, false, canonical);
        }
      }
    } else {
      ParseRestWellFormed("", t, true, false);
    }
  }

  lemma SplitPkgPart(pkg: string, name: string)
    requires ':' !in pkg
    ensures SplitPkg("//" + pkg) == (pkg, "")
    ensures SplitPkg("//" + pkg + ":" + name) == (pkg, ":" + name)
  {
    var head := "//" + pkg;
    assert ':' !in head;
    IndexAbsent(head, ':');
    assert head[2..] == pkg;
    var s := head + ":" + name;
    assert s[..|head|] == head;
    IndexOfChar(s, ':', |head|);
    assert s[2..|head|] == pkg && s[|head|..] == ":" + name;
  }

  /** What follows the repository when a label is printed. */
  function PkgAndName(l: Label): string {
    "//" + l.pkg + if PathBase(l.pkg) == l.name then "" else ":" + l.name
  }

  lemma ParsePackagePart(l: Label)
    requires WellFormed(l) && !l.relative
    ensures ParseRest(l.repo, PkgAndName(l), false, l.canonical) == if NameLost(l) then Err(PkgAndNameEmpty) else Ok(l)
  {
    assert ':' !in l.pkg;
    SplitPkgPart(l.pkg, l.name);
    assert "//" <= PkgAndName(l);
    if PathBase(l.pkg) == l.name {
      assert PkgAndName(l) == "//" + l.pkg;
      assert l.pkg == "" ==> l.name == ".";
    } else {
      assert PkgAndName(l) == "//" + l.pkg + ":" + l.name;
      assert TrimColon(":" + l.name) == l.name;
      assert l.name != "" ==> |":" + l.name| > 1;
    }
  }

  /** Printing a well-formed label and parsing the result gives the label back,
      except for the one form whose name is not printed. */
  lemma PrintThenParse(l: Label)
    requires WellFormed(l)
    ensures Parse(String(l)) == if NameLost(l) then Err(PkgAndNameEmpty) else Ok(l)
  {
    if l.relative {
      var s := String(l);
      assert s[0] == ':';
      assert !("@" <= s) && !("@@" <= s) && !("//" <= s);
      assert s == ":" + l.name && TrimColon(s) == l.name;
    } else {
      assert String(l) == RepoString(l) + PkgAndName(l);
      ParsePackagePart(l);
      ParseRepoPart(l, PkgAndName(l));
    }
  }

  lemma ParseRepoPart(l: Label, tail: string)
    requires WellFormed(l) && !l.relative && "//" <= tail
    ensures Parse(RepoString(l) + tail) == ParseRest(l.repo, tail, false, l.canonical)
  {
    assert RepoOK(l.repo);
    hide Parse, ParseBody, ParseRest, SplitRepo, RepoHead, WellFormed, RepoOK;
    if l.repo == "" {
      NoRepoString(l);
      ParseWithoutRepo(tail);
    } else {
      SplitRepoPart(l.repo, tail);
      RepoStringIs(l);
      ParseAfterRepo(l.repo, tail, l.canonical);
      ParseHead(RepoHead(l.repo), tail, l.canonical);
    }
  }

  lemma ParseHead(head: string, tail: string, canonical: bool)
    requires "@" <= head + tail && |head + tail| > 1 && (head + tail)[1] != '@'
    ensures Parse((if canonical then "@" else "") + head + tail) == ParseBody(head + tail, canonical)
  {
    hide Parse, ParseBody;
    ParseStripsCanonical(head + tail);
    if canonical {
      assert "@" + head + tail == "@" + (head + tail);
    } else {
      assert "" + head == head;
    }
  }

  lemma NoRepoString(l: Label)
    requires WellFormed(l) && l.repo == ""
    ensures RepoString(l) == "" && !l.canonical
  {
  }

  lemma RepoStringIs(l: Label)
    requires WellFormed(l) && l.repo != ""
    ensures RepoString(l) == (if l.canonical then "@" else "") + RepoHead(l.repo)
  {
    hide RepoOK, NameOK, PathBase;
  }

  lemma ParseAfterRepo(repo: string, tail: string, canonical: bool)
    requires RepoOK(repo) && repo != "" && "//" <= tail
    ensures ParseBody(RepoHead(repo) + tail, canonical) == ParseRest(repo, tail, false, canonical)
  {
    SplitRepoPart(repo, tail);
    hide ParseRest, SplitRepo, RepoOK;
  }

  lemma ParseWithoutRepo(tail: string)
    requires "//" <= tail
    ensures "" + tail == tail && Parse(tail) == ParseRest("", tail, false, false)
  {
    assert tail[0] == '/';
    assert ParseRest("", tail, true, false) == ParseRest("", tail, false, false);
  }

  lemma ParseStripsCanonical(inner: string)
    requires "@" <= inner && |inner| > 1 && inner[1] != '@'
    ensures Parse("@" + inner) == ParseBody(inner, true)
    ensures Parse(inner) == ParseBody(inner, false)
  {
    assert ("@" + inner)[1..] == inner;
    assert ("@" + inner)[0] == '@' && ("@" + inner)[1] == '@';
  }

  function RepoHead(repo: string): string {
    if repo == "@" then "@" else "@" + repo
  }

  lemma SplitRepoPart(repo: string, tail: string)
    requires RepoOK(repo) && repo != "" && "//" <= tail
    ensures var inner := RepoHead(repo) + tail;
            "@" <= inner && inner[1] != '@' && SplitRepo(inner) == (repo, tail)
  {
    var head := RepoHead(repo);
    var inner := head + tail;
    assert inner[|head|..|head| + 2] == tail[..2];
    assert forall j | 1 <= j < |head| :: head[j] in repo;
    forall j | 0 <= j < |head| ensures !At(inner, "//", j) {
      assert inner[j] == head[j] != '/';
      if j + 2 <= |inner| {
        assert inner[j..j + 2][0] == inner[j];
      }
    }
    IndexIsFirst(inner, "//", |head|);
    assert inner[|head|..] == tail;
    assert repo != "@" ==> inner[1..|head|] == repo;
  }

  /** The repository as it is written. */
  function Written(l: Label): string {
    (if l.canonical then "@" else "") + if l.repo == "" then "" else if l.repo == "@" then "@" else "@" + l.repo
  }

  /** What labels mean, written out: with all parts, without the name, which then is the
      last element of the package, relative, and as a repository alone. */
  lemma ParseForms(l: Label, elements: seq<string>)
    requires WellFormed(l) && ValidElements(elements) && elements != []
    ensures l.relative ==> Parse(":" + l.name) == Ok(l)
    ensures !l.relative ==> Parse(Written(l) + "//" + l.pkg + ":" + l.name) == Ok(l)
    ensures !l.relative && l.pkg == Join(elements) ==>
              Parse(Written(l) + "//" + l.pkg) == Ok(l.(name := elements[|elements| - 1]))
    ensures l.repo != "" && l.repo != "@" && NameOK(l.repo) ==>
              Parse("@" + l.repo) == Ok(Label(l.repo, "", l.repo, false, false))
  {
    hide Parse, ParseRest, Written, RepoOK, NameOK, Join, PathBase, ValidElements;
    if l.relative {
      RelativeParsed(l);
    } else {
      WholeParsed(l);
      if l.pkg == Join(elements) {
        BaseIsLast(elements);
        LastIsNoSlash(elements);
        PackageParsed(l);
      }
    }
    if l.repo != "" && l.repo != "@" && NameOK(l.repo) { RepoAlone(l.repo); }
  }

  lemma RelativeParsed(l: Label)
    requires WellFormed(l) && l.relative
    ensures Parse(":" + l.name) == Ok(l)
  {
    assert (":" + l.name)[1..] == l.name && (":" + l.name)[0] == ':';
  }

  lemma WholeParsed(l: Label)
    requires WellFormed(l) && !l.relative
    ensures Parse(Written(l) + "//" + l.pkg + ":" + l.name) == Ok(l)
  {
    hide Parse, ParseRest, Written, WellFormed, RepoOK, NameOK;
    var tail := "//" + l.pkg + ":" + l.name;
    assert tail[..2] == "//";
    WrittenParsed(l, tail);
    NamedRest(l);
    assert Written(l) + "//" + l.pkg + ":" + l.name == Written(l) + tail;
  }

  lemma PackageParsed(l: Label)
    requires WellFormed(l) && !l.relative && l.pkg != ""
    ensures Parse(Written(l) + "//" + l.pkg) == Ok(l.(name := PathBase(l.pkg)))
  {
    hide Parse, ParseRest, Written, WellFormed, RepoOK, NameOK, PathBase;
    var tail := "//" + l.pkg;
    assert tail[..2] == "//";
    WrittenParsed(l, tail);
    UnnamedRest(l);
    assert Written(l) + "//" + l.pkg == Written(l) + tail;
  }

  lemma WrittenParsed(l: Label, tail: string)
    requires WellFormed(l) && !l.relative && "//" <= tail
    ensures Parse(Written(l) + tail) == ParseRest(l.repo, tail, false, l.canonical)
  {
    hide Parse, ParseRest;
    ParseRepoPart(l, tail);
    if l.repo == "" {
      NoRepoString(l);
      assert Written(l) == "";
    } else {
      RepoStringIs(l);
    }
  }

  lemma NamedRest(l: Label)
    requires WellFormed(l) && !l.relative
    ensures ParseRest(l.repo, "//" + l.pkg + ":" + l.name, false, l.canonical) == Ok(l)
  {
    SplitPkgPart(l.pkg, l.name);
    assert "//" <= "//" + l.pkg + ":" + l.name;
    assert TrimColon(":" + l.name) == l.name && |":" + l.name| > 1;
    hide SplitPkg, PathBase;
  }

  lemma UnnamedRest(l: Label)
    requires WellFormed(l) && !l.relative && l.pkg != ""
    ensures ParseRest(l.repo, "//" + l.pkg, false, l.canonical) == Ok(l.(name := PathBase(l.pkg)))
  {
    SplitPkgPart(l.pkg, l.name);
    assert "//" <= "//" + l.pkg;
    hide SplitPkg, PathBase;
  }

  lemma RepoAlone(repo: string)
    requires RepoOK(repo) && repo != "" && repo != "@" && NameOK(repo)
    ensures Parse("@" + repo) == Ok(Label(repo, "", repo, false, false))
  {
    var s := "@" + repo;
    assert repo[0] in repo && s[1..] == repo && s[..1] == "@";
    NoSlashes(repo);
    OnlyRest(repo);
    hide RepoOK, NameOK, ParseRest, Index;
  }

  lemma OnlyRest(repo: string)
    requires repo != "" && NameOK(repo)
    ensures ParseRest(repo, "//:" + repo, false, false) == Ok(Label(repo, "", repo, false, false))
  {
    SplitPkgPart("", repo);
    assert "//" + "" + ":" + repo == "//:" + repo && ("//:" + repo)[..2] == "//";
    assert TrimColon(":" + repo) == repo && |":" + repo| > 1;
    hide SplitPkg, PathBase;
  }

  lemma NoSlashes(repo: string)
    requires RepoOK(repo) && repo != "@"
    ensures Index("@" + repo, "//") < 0
  {
    var s := "@" + repo;
    assert forall c :: c in s <==> c == '@' || c in repo;
    NoSlash(s);
  }

  lemma {:induction false} NoSlash(s: string)
    requires '/' !in s
    ensures Index(s, "//") < 0
  {
    if s != "" {
      assert s[0] in s;
      NoSlash(s[1..]);
    }
  }

  /** For every string the parser accepts, parsing the printed label returns the
      same label, unless the package is empty and the name is ".". */
  lemma RoundTrip(s: string)
    requires Parse(s).Ok?
    ensures var l := Parse(s).value;
            Parse(String(l)) == Ok(l) <==> !NameLost(l)
  {
    ParseWellFormed(s);
    PrintThenParse(Parse(s).value);
  }

  /** Distinct labels the parser produces are printed differently. */
  lemma StringInjective(a: Label, b: Label)
    requires WellFormed(a) && WellFormed(b) && String(a) == String(b) && !NameLost(a)
    ensures a == b
  {
    PrintThenParse(a);
    PrintThenParse(b);
  }

  /** The excepted form does occur: "//:." is accepted and printed as "//". */
  lemma NameLostIsParsed()
    ensures Parse("//:.") == Ok(Label("", "", ".", false, false))
    ensures String(Label("", "", ".", false, false)) == "//"
    ensures Parse("//") == Err(PkgAndNameEmpty)
  {
    DotName();
    DotPrinted();
    hide Parse, ParseRest, String;
    assert "//" <= "//:.";
    ParseWithoutRepo("//:.");
    ParseWithoutRepo("//");
  }

  lemma DotPrinted()
    ensures String(Label("", "", ".", false, false)) == "//"
    ensures ParseRest("", "//", false, false) == Err(PkgAndNameEmpty)
  {
    IndexAbsent("//", ':');
    assert "//"[2..] == "";
  }

  lemma DotName()
    ensures ParseRest("", "//:.", false, false) == Ok(Label("", "", ".", false, false))
  {
    var s := "//:.";
    IndexOfChar(s, ':', 2);
    assert s[2..2] == "" && s[2..] == ":." && TrimColon(":.") == ".";
  }
}
