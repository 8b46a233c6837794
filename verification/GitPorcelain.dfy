/** Parsing the output of `git status --porcelain=v1 --branch`, and the printer it undoes. */
module GitPorcelain {
  import opened Arith

  datatype GitInfo = GitInfo(branch: string, upstream: Option<string>, ahead: nat, behind: nat, dirty: nat)

  const NOTHING := GitInfo("", None, 0, 0, 0)

  const TWO_32: nat := 0x1_0000_0000

  // ---- Strings ----

  predicate StartsWith(s: string, p: string) {
    |p| <= |s| && s[..|p|] == p
  }

  lemma MatchAt(s: string, p: string, j: nat)
    requires j <= |s|
    ensures StartsWith(s[j..], p) <==> j + |p| <= |s| && forall i :: 0 <= i < |p| ==> s[j + i] == p[i]
  {
    if j + |p| <= |s| {
      assert forall i :: 0 <= i < |p| ==> s[j..][..|p|][i] == s[j + i];
    }
  }

  /** The position of the first occurrence of `p`. */
  function Find(s: string, p: string): (r: Option<nat>)
    ensures r.Some? ==> r.value <= |s| && StartsWith(s[r.value..], p)
    ensures r.Some? ==> forall j :: 0 <= j < r.value ==> !StartsWith(s[j..], p)
    ensures r == None ==> forall j :: 0 <= j <= |s| ==> !StartsWith(s[j..], p)
  {
    if StartsWith(s, p) then
      assert s[0..] == s;
      Some(0)
    else if s == "" then
      assert s[0..] == s;
      None
    else
      var r := Find(s[1..], p);
      assert s[0..] == s;
      assert forall j :: 1 <= j <= |s| ==> s[j..] == s[1..][j - 1..];
      if r.Some? then Some(r.value + 1) else None
  }

  lemma FindsAt(s: string, p: string, k: nat)
    requires k <= |s| && StartsWith(s[k..], p) && forall j :: 0 <= j < k ==> !StartsWith(s[j..], p)
    ensures Find(s, p) == Some(k)
  {
  }

  predicate IsDigit(c: char) { '0' <= c <= '9' }

  /** The longest prefix of ASCII digits. */
  function TakeDigits(s: string): string {
    if s != "" && IsDigit(s[0]) then [s[0]] + TakeDigits(s[1..]) else ""
  }

  function Value(ds: string): nat
    requires forall i :: 0 <= i < |ds| ==> IsDigit(ds[i])
  {
    if ds == "" then 0 else
      assert IsDigit(ds[|ds| - 1]);
      10 * Value(ds[..|ds| - 1]) + (ds[|ds| - 1] as int - '0' as int)
  }

  /** `parse::<u32>` on a run of digits: None when there is none, or on overflow. */
  function ParseU32(ds: string): Option<nat>
    requires forall i :: 0 <= i < |ds| ==> IsDigit(ds[i])
  {
    if ds == "" || Value(ds) >= TWO_32 then None else Some(Value(ds))
  }

  lemma TakesOnlyDigits(s: string)
    ensures forall i :: 0 <= i < |TakeDigits(s)| ==> IsDigit(TakeDigits(s)[i])
  {
  }

  function ExtractCount(s: string, prefix: string): Option<nat> {
    match Find(s, prefix)
    case None => None
    case Some(at) =>
      var rest := s[at + |prefix|..];
      TakesOnlyDigits(rest);
      ParseU32(TakeDigits(rest))
  }

  /** `str::lines`: split after each newline, and drop it together with a carriage return before it. */
  function Lines(s: string): seq<string>
    decreases |s|
  {
    if s == "" then []
    else
      match Find(s, "\n")
      case None => [s]
      case Some(at) => [StripCr(s[..at])] + Lines(s[at + 1..])
  }

  function StripCr(l: string): string {
    if l != "" && l[|l| - 1] == '\r' then l[..|l| - 1] else l
  }

  function NonEmpty(ls: seq<string>): nat {
    if ls == [] then 0 else NonEmpty(ls[..|ls| - 1]) + if ls[|ls| - 1] == "" then 0 else 1
  }

  // ---- The parser ----

  const NO_COMMITS := "No commits yet on "
  const DETACHED := "HEAD (no branch)"
  const GONE := "gone]"

  /** What the header line says. */
  function ParseHeader(header: string): GitInfo {
    if StartsWith(header, NO_COMMITS) then NOTHING.(branch := header[|NO_COMMITS|..])
    else if StartsWith(header, DETACHED) then NOTHING.(branch := "HEAD")
    else
      match Find(header, "...")
      case None => NOTHING.(branch := header)
      case Some(dots) => ParseTracking(header[..dots], header[dots + 3..])
  }

  /** What stands after the dots: the upstream, and the divergence in brackets. */
  function ParseTracking(branch: string, rest: string): GitInfo {
    match Find(rest, " [")
    case None => GitInfo(branch, Some(rest), 0, 0, 0)
    case Some(bracket) =>
      var content := rest[bracket + 2..];
      var ahead, behind := ExtractCount(content, "ahead "), ExtractCount(content, "behind ");
      GitInfo(branch, Some(rest[..bracket]), if ahead.Some? then ahead.value else 0,
              if behind.Some? then behind.value else 0, 0)
  }

  function Parse(out: string): GitInfo {
    var lines := Lines(out);
    if lines == [] || !StartsWith(lines[0], "## ") then NOTHING
    else ParseHeader(lines[0][3..]).(dirty := NonEmpty(lines[1..]) % TWO_32)
  }

  method ParsePorcelain(out: string) returns (info: GitInfo)
    ensures info == Parse(out)
  {
    var lines := Lines(out);
    if lines == [] || !StartsWith(lines[0], "## ") {
      return NOTHING;
    }
    var header := lines[0][3..];
    var branch;
    var upstream: Option<string> := None;
    var ahead, behind := 0, 0;
    if StartsWith(header, NO_COMMITS) {
      branch := header[|NO_COMMITS|..];
    } else if StartsWith(header, DETACHED) {
      branch := "HEAD";
    } else {
      var dots := Find(header, "...");
      if dots.Some? {
        branch := header[..dots.value];
        var rest := header[dots.value + 3..];
        var bracket := Find(rest, " [");
        if bracket.Some? {
          upstream := Some(rest[..bracket.value]);
          var content := rest[bracket.value + 2..];
          var n := ExtractCount(content, "ahead ");
          if n.Some? {
            ahead := n.value;
          }
          n := ExtractCount(content, "behind ");
          if n.Some? {
            behind := n.value;
          }
        } else {
          upstream := Some(rest);
        }
      } else {
        branch := header;
      }
    }
    var dirty := 0;
    var changes := lines[1..];
    for i := 0 to |changes|
      invariant dirty == NonEmpty(changes[..i])
    {
      assert changes[..i + 1][..i] == changes[..i];
      if changes[i] != "" {
        dirty := dirty + 1;
      }
    }
    assert changes[..|changes|] == changes;
    info := GitInfo(branch, upstream, ahead, behind, dirty % TWO_32);
  }

  // ---- The printer ----

  function Decimal(n: nat): (s: string)
    ensures s != "" && forall i :: 0 <= i < |s| ==> IsDigit(s[i])
  {
    if n < 10 then [(n + '0' as int) as char] else Decimal(n / 10) + [(n % 10 + '0' as int) as char]
  }

  /** The divergence from the upstream, as git prints it after " [". */
  function Counts(ahead: nat, behind: nat): string {
    if ahead > 0 && behind > 0 then "ahead " + (Decimal(ahead) + (", behind " + (Decimal(behind) + "]")))
    else if ahead > 0 then "ahead " + (Decimal(ahead) + "]")
    else "behind " + (Decimal(behind) + "]")
  }

  function Divergence(ahead: nat, behind: nat): string {
    if ahead > 0 || behind > 0 then " [" + Counts(ahead, behind) else ""
  }

  function Header(branch: string, upstream: Option<string>, ahead: nat, behind: nat): string {
    match upstream
    case None => branch
    case Some(u) => branch + ("..." + (u + Divergence(ahead, behind)))
  }

  /** Where the work tree stands: on a branch, on one whose upstream is gone, on one without commits, or on none. The
      upstream of a branch without commits is always reported as gone. */
  datatype Head =
    | OnBranch(name: string, upstream: Option<string>, ahead: nat, behind: nat)
    | Gone(name: string, lost: string)
    | Unborn(name: string, upstream: Option<string>)
    | Detached

  /** A branch whose upstream is gone. */
  function Lost(b: string, u: string): string { b + ("..." + (u + (" [" + GONE))) }

  function HeadLine(h: Head): string {
    match h
    case OnBranch(b, up, ahead, behind) => Header(b, up, ahead, behind)
    case Gone(b, u) => Lost(b, u)
    case Unborn(b, up) => NO_COMMITS + if up.Some? then Lost(b, up.value) else b
    case Detached => DETACHED
  }

  /** What a reader of the status should learn about it. */
  function Meaning(h: Head): GitInfo {
    match h
    case OnBranch(b, up, ahead, behind) => GitInfo(b, up, ahead, behind, 0)
    case Gone(b, u) => GitInfo(b, Some(u), 0, 0, 0)
    case Unborn(b, up) => GitInfo(b, up, 0, 0, 0)
    case Detached => GitInfo("HEAD", None, 0, 0, 0)
  }

  function Unlines(ls: seq<string>): string {
    if ls == [] then "" else ls[0] + "\n" + Unlines(ls[1..])
  }

  function Print(h: Head, changes: seq<string>): string {
    Unlines(["## " + HeadLine(h)] + changes)
  }

  // ---- Round trip ----

  lemma {:induction false} ValueOfDecimal(n: nat)
    ensures Value(Decimal(n)) == n
  {
    if n < 10 {
      assert Decimal(n)[..0] == "";
    } else {
      ValueOfDecimal(n / 10);
      assert Decimal(n)[..|Decimal(n)| - 1] == Decimal(n / 10);
    }
  }

  lemma {:induction false} TakesDigits(ds: string, rest: string)
    requires forall i :: 0 <= i < |ds| ==> IsDigit(ds[i])
    requires rest != "" && !IsDigit(rest[0])
    ensures TakeDigits(ds + rest) == ds
  {
    if ds == "" {
      assert ds + rest == rest;
    } else {
      assert (ds + rest)[1..] == ds[1..] + rest;
      TakesDigits(ds[1..], rest);
    }
  }

  /** A count is read back when it follows the first occurrence of its label; one that does not fit 32 bits is
      ignored. */
  lemma ReadsCount(s: string, before: string, tag: string, n: nat, rest: string)
    requires s == before + (tag + (Decimal(n) + rest))
    requires tag != "" && tag[0] !in before && rest != "" && !IsDigit(rest[0])
    ensures ExtractCount(s, tag) == if n < 0x1_0000_0000 then Some(n) else None
  {
    FindsTag(s, before, tag, Decimal(n) + rest);
    TakesDigits(Decimal(n), rest);
    ValueOfDecimal(n);
  }

  lemma FindsTag(s: string, before: string, tag: string, tail: string)
    requires s == before + (tag + tail) && tag != "" && tag[0] !in before
    ensures Find(s, tag) == Some(|before|) && s[|before| + |tag|..] == tail
  {
    var k := |before|;
    assert s[k..] == tag + tail;
    forall j | 0 <= j < k ensures !StartsWith(s[j..], tag) {
      MatchAt(s, tag, j);
      assert s[j] == before[j];
    }
    FindsAt(s, tag, k);
  }

  lemma NoLabelNoCount(s: string, tag: string)
    requires tag != "" && tag[0] !in s
    ensures ExtractCount(s, tag) == None
  {
    forall j | 0 <= j <= |s| ensures !StartsWith(s[j..], tag) {
      MatchAt(s, tag, j);
    }
  }

  lemma DigitsOnly(s: string, c: char)
    requires (forall i :: 0 <= i < |s| ==> IsDigit(s[i])) && !IsDigit(c)
    ensures c !in s
  {
  }

  /** Both counts are read back. */
  lemma ReadsCounts(ahead: nat, behind: nat)
    requires ahead < TWO_32 && behind < TWO_32 && (ahead > 0 || behind > 0)
    ensures ExtractCount(Counts(ahead, behind), "ahead ") == (if ahead > 0 then Some(ahead) else None)
    ensures ExtractCount(Counts(ahead, behind), "behind ") == (if behind > 0 then Some(behind) else None)
  {
    if ahead > 0 && behind > 0 {
      DigitsOnly(Decimal(ahead), 'b');
      ReadsCount(Counts(ahead, behind), "", "ahead ", ahead, ", behind " + (Decimal(behind) + "]"));
      ReadsSecond(Decimal(ahead), Decimal(behind), behind);
    } else if ahead > 0 {
      ReadsOnly("ahead ", ahead, "behind ");
    } else {
      ReadsOnly("behind ", behind, "ahead ");
    }
  }

  lemma ReadsOnly(tag: string, n: nat, other: string)
    requires tag != "" && other != "" && other[0] !in tag && !IsDigit(other[0]) && other[0] != ']' && n < TWO_32
    ensures ExtractCount(tag + (Decimal(n) + "]"), tag) == Some(n)
    ensures ExtractCount(tag + (Decimal(n) + "]"), other) == None
  {
    var s := tag + (Decimal(n) + "]");
    assert "" + s == s;
    ReadsCount(s, "", tag, n, "]");
    DigitsOnly(Decimal(n), other[0]);
    NoLabelNoCount(s, other);
  }

  lemma ReadsSecond(a: string, b: string, behind: nat)
    requires b == Decimal(behind) && behind < TWO_32 && 'b' !in a
    ensures ExtractCount("ahead " + (a + (", behind " + (b + "]"))), "behind ") == Some(behind)
  {
    var s := "ahead " + (a + (", behind " + (b + "]")));
    var before := "ahead " + a + ", ";
    assert ", behind " == ", " + "behind ";
    assert s == before + ("behind " + (b + "]"));
    ReadsCount(s, before, "behind ", behind, "]");
  }

  /** What git guarantees of a branch name, as far as the parser depends on it. */
  predicate BranchName(b: string) {
    && ' ' !in b && '\n' !in b && '\r' !in b
    && (forall i :: 0 <= i < |b| - 1 ==> !(b[i] == '.' && b[i + 1] == '.'))
    && (b != "" ==> b[|b| - 1] != '.')
  }

  predicate UpstreamName(u: string) {
    && '\n' !in u && (u != "" ==> u[|u| - 1] != '\r')
    && forall i :: 0 <= i < |u| - 1 ==> !(u[i] == ' ' && u[i + 1] == '[')
  }

  /** A header with a branch name in front is not one of the special forms, which have a space and no dot. */
  lemma NotSpecial(b: string, tail: string, p: string, k: nat)
    requires ' ' !in b && (tail == "" || tail[0] == '.') && k < |p| && p[k] == ' ' && '.' !in p
    ensures !StartsWith(b + tail, p)
  {
    var s := b + tail;
    MatchAt(s, p, 0);
    assert s[0..] == s;
    assert |b| <= k && tail != "" ==> s[|b|] == '.' && p[|b|] != '.';
    assert k < |b| ==> s[k] == b[k];
  }

  lemma FindsDots(b: string, tail: string)
    requires BranchName(b) && StartsWith(tail, "...")
    ensures Find(b + tail, "...") == Some(|b|)
  {
    var s := b + tail;
    assert s[|b|..] == tail;
    forall j | 0 <= j < |b| ensures !StartsWith(s[j..], "...") {
      MatchAt(s, "...", j);
      assert s[j] == b[j] && (j + 1 < |b| ==> s[j + 1] == b[j + 1]);
    }
    FindsAt(s, "...", |b|);
  }

  lemma NoDots(b: string)
    requires BranchName(b)
    ensures Find(b, "...") == None
  {
    forall j | 0 <= j <= |b| ensures !StartsWith(b[j..], "...") {
      MatchAt(b, "...", j);
      assert "..."[0] == "..."[1] == '.';
      if j + 3 <= |b| {
        assert !(b[j + 0] == '.' && b[j + 1] == '.');
      }
    }
  }

  lemma FindsBracket(u: string, tail: string)
    requires UpstreamName(u) && (tail == "" || StartsWith(tail, " ["))
    ensures Find(u + tail, " [") == if tail == "" then None else Some(|u|)
  {
    var s := u + tail;
    assert s[|u|..] == tail;
    MatchAt(tail, " [", 0);
    assert tail[0..] == tail;
    forall j | 0 <= j < |u| ensures !StartsWith(s[j..], " [") {
      MatchAt(s, " [", j);
      assert s[j] == u[j] && (j + 1 < |u| ==> s[j + 1] == u[j + 1]) && (j + 1 == |u| && tail != "" ==> s[j + 1] == ' ');
    }
    if tail == "" {
      MatchAt(s, " [", |u|);
    } else {
      FindsAt(s, " [", |u|);
    }
  }

  lemma NotSpecialHeader(b: string, tail: string)
    requires BranchName(b) && (tail == "" || tail[0] == '.')
    ensures !StartsWith(b + tail, NO_COMMITS) && !StartsWith(b + tail, DETACHED)
  {
    assert NO_COMMITS[2] == ' ' && DETACHED[4] == ' ';
    NotSpecial(b, tail, NO_COMMITS, 2);
    NotSpecial(b, tail, DETACHED, 4);
  }

  /** The header is read back. */
  lemma HeaderRoundTrip(b: string, up: Option<string>, ahead: nat, behind: nat)
    requires BranchName(b) && (up.Some? ==> UpstreamName(up.value)) && ahead < TWO_32 && behind < TWO_32
    requires up == None ==> ahead == behind == 0
    ensures ParseHeader(Header(b, up, ahead, behind)) == GitInfo(b, up, ahead, behind, 0)
  {
    if up == None {
      assert b + "" == b;
      NotSpecialHeader(b, "");
      NoDots(b);
    } else {
      ParsesTracking(b, up.value + Divergence(ahead, behind));
      UpstreamRoundTrip(b, up.value, ahead, behind);
    }
  }

  /** What git guarantees of the parts of a header. */
  predicate Legal(h: Head) {
    match h
    case OnBranch(b, up, ahead, behind) =>
      && BranchName(b) && (up.Some? ==> UpstreamName(up.value)) && ahead < TWO_32 && behind < TWO_32
      && (up == None ==> ahead == behind == 0)
    case Gone(b, u) => BranchName(b) && UpstreamName(u)
    case Unborn(b, up) => BranchName(b) && (up.Some? ==> UpstreamName(up.value))
    case Detached => true
  }

  lemma GoneRoundTrip(b: string, u: string)
    requires BranchName(b) && UpstreamName(u)
    ensures ParseHeader(Lost(b, u)) == GitInfo(b, Some(u), 0, 0, 0)
  {
    ParsesTracking(b, u + (" [" + GONE));
    GoneTracking(b, u);
  }

  lemma GoneTracking(b: string, u: string)
    requires UpstreamName(u)
    ensures ParseTracking(b, u + (" [" + GONE)) == GitInfo(b, Some(u), 0, 0, 0)
  {
    SplitsBracket(b, u, GONE);
    NoLabelNoCount(GONE, "ahead ");
    NoLabelNoCount(GONE, "behind ");
  }

  lemma UnbornRoundTrip(rest: string)
    ensures ParseHeader(NO_COMMITS + rest) == GitInfo(rest, None, 0, 0, 0)
  {
    var header := NO_COMMITS + rest;
    assert header[..|NO_COMMITS|] == NO_COMMITS && header[|NO_COMMITS|..] == rest;
  }

  lemma DetachedRoundTrip()
    ensures ParseHeader(DETACHED) == GitInfo("HEAD", None, 0, 0, 0)
  {
    assert DETACHED[..|DETACHED|] == DETACHED;
  }

  /** A branch without commits that has an upstream: its header is taken for a branch name as a whole. */
  predicate Misread(h: Head) { h.Unborn? && h.upstream.Some? }

  /** What is read from the header. */
  function ReadAs(h: Head): GitInfo {
    if Misread(h) then GitInfo(Lost(h.name, h.upstream.value), None, 0, 0, 0) else Meaning(h)
  }

  lemma HeadIsReadAs(h: Head)
    requires Legal(h)
    ensures ParseHeader(HeadLine(h)) == ReadAs(h)
  {
    match h
    case OnBranch(b, up, ahead, behind) => HeaderRoundTrip(b, up, ahead, behind);
    case Gone(b, u) => GoneRoundTrip(b, u);
    case Unborn(b, up) => UnbornRoundTrip(if up.Some? then Lost(b, up.value) else b);
    case Detached => DetachedRoundTrip();
  }

  /** A header is read back if and only if it is not that of a branch without commits that has an upstream. */
  lemma HeadRoundTrip(h: Head)
    requires Legal(h)
    ensures ParseHeader(HeadLine(h)) == Meaning(h) <==> !Misread(h)
  {
    HeadIsReadAs(h);
  }

  lemma ParsesTracking(b: string, rest: string)
    requires BranchName(b)
    ensures ParseHeader(b + ("..." + rest)) == ParseTracking(b, rest)
  {
    var header := b + ("..." + rest);
    NotSpecialHeader(b, "..." + rest);
    FindsDots(b, "..." + rest);
    assert header[..|b|] == b && header[|b| + 3..] == rest;
  }

  /** The upstream and the counts are read back from what follows the dots. */
  lemma UpstreamRoundTrip(b: string, u: string, ahead: nat, behind: nat)
    requires UpstreamName(u) && ahead < TWO_32 && behind < TWO_32
    ensures ParseTracking(b, u + Divergence(ahead, behind)) == GitInfo(b, Some(u), ahead, behind, 0)
  {
    if ahead > 0 || behind > 0 {
      ReadsCounts(ahead, behind);
      SplitsBracket(b, u, Counts(ahead, behind));
    } else {
      FindsBracket(u, "");
      assert u + "" == u;
    }
  }

  lemma SplitsBracket(b: string, u: string, content: string)
    requires UpstreamName(u)
    ensures var a, n := ExtractCount(content, "ahead "), ExtractCount(content, "behind ");
            ParseTracking(b, u + (" [" + content))
              == GitInfo(b, Some(u), if a.Some? then a.value else 0, if n.Some? then n.value else 0, 0)
  {
    var tail := " [" + content;
    assert tail[..2] == " [";
    FindsBracket(u, tail);
    assert (u + tail)[..|u|] == u;
    assert (u + tail)[|u| + 2..] == content;
  }

  function StripAll(ls: seq<string>): (r: seq<string>)
    ensures |r| == |ls|
  {
    seq(|ls|, i requires 0 <= i < |ls| => StripCr(ls[i]))
  }

  lemma FirstLine(l: string, rest: string)
    requires '\n' !in l
    ensures Lines(l + "\n" + rest) == [StripCr(l)] + Lines(rest)
  {
    var s := l + "\n" + rest;
    assert s[|l|..] == "\n" + rest;
    forall j | 0 <= j < |l| ensures !StartsWith(s[j..], "\n") {
      MatchAt(s, "\n", j);
      assert s[j] == l[j];
    }
    FindsAt(s, "\n", |l|);
    assert s[..|l|] == l;
    assert s[|l| + 1..] == rest;
  }

  lemma {:induction false} LinesOfUnlines(ls: seq<string>)
    requires forall i :: 0 <= i < |ls| ==> '\n' !in ls[i]
    ensures Lines(Unlines(ls)) == StripAll(ls)
  {
    if ls != [] {
      FirstLine(ls[0], Unlines(ls[1..]));
      LinesOfUnlines(ls[1..]);
      assert StripAll(ls) == [StripCr(ls[0])] + StripAll(ls[1..]);
    }
  }

  /** No newline inside, no carriage return at the end. */
  predicate Clean(s: string) {
    '\n' !in s && (s != "" ==> s[|s| - 1] != '\r')
  }

  lemma CleanConcat(a: string, b: string)
    requires Clean(a) && Clean(b)
    ensures Clean(a + b)
  {
  }

  lemma CleanDigits(n: nat)
    ensures Clean(Decimal(n))
  {
    DigitsOnly(Decimal(n), '\n');
    DigitsOnly(Decimal(n), '\r');
  }

  lemma CleanDivergence(ahead: nat, behind: nat)
    ensures Clean(Divergence(ahead, behind))
  {
    var a, b := Decimal(ahead), Decimal(behind);
    CleanDigits(ahead);
    CleanDigits(behind);
    CleanConcat(a, "]");
    CleanConcat(b, "]");
    CleanConcat("ahead ", a + "]");
    CleanConcat("behind ", b + "]");
    CleanConcat(", behind ", b + "]");
    CleanConcat(a, ", behind " + (b + "]"));
    CleanConcat("ahead ", a + (", behind " + (b + "]")));
    if ahead > 0 || behind > 0 {
      CleanConcat(" [", Counts(ahead, behind));
    }
  }

  lemma CleanHeader(b: string, up: Option<string>, ahead: nat, behind: nat)
    requires BranchName(b) && (up.Some? ==> UpstreamName(up.value))
    ensures Clean("## " + Header(b, up, ahead, behind))
  {
    if up.Some? {
      CleanDivergence(ahead, behind);
      CleanConcat(up.value, Divergence(ahead, behind));
      CleanConcat("...", up.value + Divergence(ahead, behind));
      CleanConcat(b, "..." + (up.value + Divergence(ahead, behind)));
    }
    CleanConcat("## ", Header(b, up, ahead, behind));
  }

  lemma CleanHead(h: Head)
    requires Legal(h)
    ensures Clean("## " + HeadLine(h))
  {
    match h
    case OnBranch(b, up, ahead, behind) => CleanHeader(b, up, ahead, behind);
    case Gone(b, u) =>
      CleanLost(b, u);
      CleanConcat("## ", HeadLine(h));
    case Unborn(b, up) =>
      if up.Some? {
        CleanLost(b, up.value);
      }
      CleanConcat(NO_COMMITS, if up.Some? then Lost(b, up.value) else b);
      CleanConcat("## ", HeadLine(h));
    case Detached =>
  }

  lemma CleanLost(b: string, u: string)
    requires BranchName(b) && UpstreamName(u)
    ensures Clean(Lost(b, u))
  {
    CleanConcat(" [", GONE);
    CleanConcat(u, " [" + GONE);
    CleanConcat("...", u + (" [" + GONE));
    CleanConcat(b, "..." + (u + (" [" + GONE)));
  }

  /** Printing a status and parsing it gives back what the header says, and the number of change lines that are not
      blank, if and only if the branch is not one without commits that has an upstream. */
  lemma RoundTrip(h: Head, changes: seq<string>)
    requires Legal(h) && |changes| < TWO_32
    requires forall i :: 0 <= i < |changes| ==> '\n' !in changes[i]
    ensures Parse(Print(h, changes)) == ReadAs(h).(dirty := NonEmpty(StripAll(changes)))
    ensures Parse(Print(h, changes)) == Meaning(h).(dirty := NonEmpty(StripAll(changes))) <==> !Misread(h)
    ensures (forall i :: 0 <= i < |changes| ==> changes[i] != "" && changes[i] != "\r")
        ==> Parse(Print(h, changes)).dirty == |changes|
  {
    CleanHead(h);
    LinesOfPrint("## " + HeadLine(h), changes);
    ParsesLines(Print(h, changes), HeadLine(h), StripAll(changes));
    HeadIsReadAs(h);
    AllCounted(changes);
  }

  /** What git prints in a fresh clone of an empty repository, and what is read from it. */
  lemma EmptyCloneIsMisread()
    ensures var h := Unborn("main", Some("origin/main"));
            && Legal(h) && HeadLine(h) == NO_COMMITS + "main...origin/main [gone]"
            && ParseHeader(HeadLine(h)) == GitInfo("main...origin/main [gone]", None, 0, 0, 0)
            && Meaning(h) == GitInfo("main", Some("origin/main"), 0, 0, 0)
  {
    EmptyCloneIsLegal("main", "origin/main");
    EmptyCloneLine("main", "origin/main");
    UnbornRoundTrip("main...origin/main [gone]");
  }

  lemma EmptyCloneIsLegal(b: string, u: string)
    requires b == "main" && u == "origin/main"
    ensures Legal(Unborn(b, Some(u)))
  {
  }

  lemma EmptyCloneLine(b: string, u: string)
    requires b == "main" && u == "origin/main"
    ensures Lost(b, u) == "main...origin/main [gone]"
  {
    assert " [" + GONE == " [gone]";
    assert u + " [gone]" == "origin/main [gone]";
    assert "..." + "origin/main [gone]" == "...origin/main [gone]";
    assert b + "...origin/main [gone]" == "main...origin/main [gone]";
  }

  lemma ParsesLines(out: string, h: string, rest: seq<string>)
    requires Lines(out) != [] && Lines(out)[0] == "## " + h && Lines(out)[1..] == rest && |rest| < TWO_32
    ensures Parse(out) == ParseHeader(h).(dirty := NonEmpty(rest))
  {
    var first := Lines(out)[0];
    assert first[3..] == h && first[..3] == "## ";
    CountBounds(rest);
    FitsCount(NonEmpty(rest));
    assert Parse(out) == ParseHeader(first[3..]).(dirty := NonEmpty(Lines(out)[1..]) % TWO_32);
  }

  lemma FitsCount(n: nat)
    requires n < TWO_32
    ensures n % TWO_32 == n
  {
  }

  lemma AllCounted(changes: seq<string>)
    ensures (forall i :: 0 <= i < |changes| ==> changes[i] != "" && changes[i] != "\r")
        ==> NonEmpty(StripAll(changes)) == |changes|
  {
    CountBounds(StripAll(changes));
  }

  lemma LinesOfPrint(header: string, changes: seq<string>)
    requires Clean(header)
    requires forall i :: 0 <= i < |changes| ==> '\n' !in changes[i]
    ensures var lines := Lines(Unlines([header] + changes));
            lines != [] && lines[0] == header && lines[1..] == StripAll(changes)
  {
    assert ([header] + changes)[1..] == changes;
    FirstLine(header, Unlines(changes));
    LinesOfUnlines(changes);
    assert ([StripCr(header)] + StripAll(changes))[1..] == StripAll(changes);
  }

  /** Output that does not begin with a header line says nothing, whatever else is in it. */
  lemma NoHeaderNoInfo(out: string)
    requires !StartsWith(out, "## ")
    ensures Parse(out) == GitInfo("", None, 0, 0, 0)
  {
    if out != "" {
      var first := Lines(out)[0];
      assert |first| <= |out| && first == out[..|first|];
      assert |first| >= 3 ==> first[..3] == out[..3];
    }
  }

  lemma CountBounds(ls: seq<string>)
    ensures NonEmpty(ls) <= |ls|
    ensures NonEmpty(ls) == |ls| <==> forall i :: 0 <= i < |ls| ==> ls[i] != ""
  {
    if ls != [] {
      CountBounds(ls[..|ls| - 1]);
    }
  }
}
