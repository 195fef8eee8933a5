/**
 Path-suffix canonicalization of the 0.2.0 lease envelope
 (src/routes/lease-middleware.ts:648-790): slashes collapsed, dot segments
 resolved, percent triplets normalized, query pairs sorted by key.
 */
module UrlCanonical {
  import opened Sequences
  import opened PercentEncoding

  // ---- Paths ----

  /** `path.replace(/\/+/g, "/")`. */
  function CollapseSlashes(s: string): string {
    if |s| >= 2 && s[0] == '/' && s[1] == '/' then CollapseSlashes(s[1..])
    else if s == [] then []
    else [s[0]] + CollapseSlashes(s[1..])
  }

  predicate IsDot(seg: string) { seg == "." || seg == ".." }

  function PushSegment(stack: seq<string>, seg: string): seq<string> {
    if seg == "" || seg == "." then stack
    else if seg == ".." then (if stack == [] then [] else stack[..|stack| - 1])
    else stack + [seg]
  }

  /** The segment stack after the whole list: section 5.2.4 of RFC 3986. */
  function Resolve(segments: seq<string>): seq<string> {
    if segments == [] then [] else PushSegment(Resolve(segments[..|segments| - 1]), segments[|segments| - 1])
  }

  /** Segments that survive dot removal. */
  function Survivors(input: string): seq<string> {
    Resolve(Split(CollapseSlashes(input), '/'))
  }

  lemma CollapseKeepsFirst(s: string)
    requires s != []
    ensures CollapseSlashes(s) != [] && CollapseSlashes(s)[0] == s[0]
  {
  }

  /** Put the boundary slashes of `path` back around the surviving segments. */
  function Assemble(path: string, stack: seq<string>): string
    requires path != []
  {
    (if path[0] == '/' then "/" else "") + Join(stack, '/') + (if path[|path| - 1] == '/' && path != "/" then "/" else "")
  }

  /** Empty becomes "/"; one trailing slash goes. */
  function TrimSlash(path: string): string {
    if path == "" then "/" else if |path| > 1 && path[|path| - 1] == '/' then path[..|path| - 1] else path
  }

  /** Rules 1 to 5 in the order the code applies them. */
  function PathNormal(input: string): string {
    if input == "" then "/"
    else
      CollapseKeepsFirst(input);
      NormPct(TrimSlash(Assemble(CollapseSlashes(input), Survivors(input))))
  }

  method RemoveDotSegments(segments: seq<string>) returns (stack: seq<string>)
    ensures stack == Resolve(segments)
  {
    stack := [];
    for i := 0 to |segments|
      invariant stack == Resolve(segments[..i])
    {
      assert segments[..i + 1][..i] == segments[..i];
      var seg := segments[i];
      if seg == "" || seg == "." { continue; }
      if seg == ".." {
        if stack != [] { stack := stack[..|stack| - 1]; }
        continue;
      }
      stack := stack + [seg];
    }
    assert segments[..|segments|] == segments;
  }

  method NormalizePath(input: string) returns (path: string)
    ensures path == PathNormal(input)
  {
    if input == "" { return "/"; }
    path := CollapseSlashes(input);
    CollapseKeepsFirst(input);
    var segments := Split(path, '/');
    var stack := RemoveDotSegments(segments);
    path := Assemble(path, stack);
    if path == "" { path := "/"; }
    if |path| > 1 && path[|path| - 1] == '/' { path := path[..|path| - 1]; }
    path := NormPct(path);
  }

  // ---- What the path step guarantees ----

  predicate Plain(seg: string) { seg != "" && !IsDot(seg) && '/' !in seg }

  predicate Proper(seg: string) { seg != "" && '/' !in seg }

  lemma ResolvedArePlain(segments: seq<string>)
    requires forall i | 0 <= i < |segments| :: '/' !in segments[i]
    ensures forall i | 0 <= i < |Resolve(segments)| :: Plain(Resolve(segments)[i])
  {
    if segments != [] { ResolvedArePlain(segments[..|segments| - 1]); }
  }

  lemma SurvivorsArePlain(input: string)
    ensures forall i | 0 <= i < |Survivors(input)| :: Plain(Survivors(input)[i])
  {
    ResolvedArePlain(Split(CollapseSlashes(input), '/'));
  }

  /** Joined proper segments neither start nor end with a slash. */
  lemma {:induction false} JoinEnds(parts: seq<string>)
    requires parts != [] && forall i | 0 <= i < |parts| :: Proper(parts[i])
    ensures var j := Join(parts, '/'); j != [] && j[0] != '/' && j[|j| - 1] != '/'
  {
    assert parts[0][0] in parts[0] && parts[0][|parts[0]| - 1] in parts[0];
    if |parts| > 1 { JoinEnds(parts[1..]); }
  }

  function Lead(input: string): string {
    if input != [] && input[0] == '/' then "/" else ""
  }

  lemma RootNormal()
    ensures NormPct("/") == "/"
  {
    assert "/"[1..] == "";
    assert NormPct("") == "";
    UnfoldStray("/");
  }

  lemma EmptyAssembly(path: string)
    requires path != []
    ensures TrimSlash(Assemble(path, [])) == "/"
  {
    var a := Assemble(path, []);
    assert Join<char>([], '/') == "";
    if path[0] == '/' && path[|path| - 1] == '/' && path != "/" {
      assert a == "/" + "" + "/" == "//";
      assert "//"[..1] == "/";
    } else if path[0] == '/' {
      assert a == "/" + "" + "" == "/";
    } else if path[|path| - 1] == '/' {
      assert a == "" + "" + "/" == "/";
    } else {
      assert a == "" + "" + "" == "";
    }
  }

  lemma TrimRooted(lead: string, joined: string, trail: string)
    requires joined != "" && joined[|joined| - 1] != '/' && (trail == "" || trail == "/")
    ensures TrimSlash(lead + joined + trail) == lead + joined
  {
    var p := lead + joined + trail;
    assert p[|lead| + |joined| - 1] == joined[|joined| - 1];
    assert p[..|p| - |trail|] == lead + joined;
  }

  lemma NormPctOfRooted(lead: string, joined: string)
    requires lead == "" || lead == "/"
    ensures NormPct(lead + joined) == lead + NormPct(joined)
  {
    if lead == "" { assert lead + joined == joined; } else { NormPctOfLiteral('/', joined); }
  }

  lemma RootedJoinNormal(lead: string, stack: seq<string>)
    requires lead == "" || lead == "/"
    ensures NormPct(lead + Join(stack, '/')) == lead + Join(NormAll(stack), '/')
  {
    NormPctOfRooted(lead, Join(stack, '/'));
    NormPctOfJoin(stack, '/');
  }

  lemma AssembledTrim(input: string, path: string, stack: seq<string>)
    requires input != "" && path != "" && path[0] == input[0]
    requires stack != [] && forall i | 0 <= i < |stack| :: Plain(stack[i])
    ensures TrimSlash(Assemble(path, stack)) == Lead(input) + Join(stack, '/')
  {
    hide Join, TrimSlash;
    JoinEnds(stack);
    TrimRooted(Lead(input), Join(stack, '/'), if path[|path| - 1] == '/' && path != "/" then "/" else "");
  }

  /** The path is the surviving segments, each normalized on its own, or the bare root. */
  lemma PathShape(input: string)
    requires input != ""
    ensures Survivors(input) == [] ==> PathNormal(input) == "/"
    ensures Survivors(input) != [] ==>
              PathNormal(input) == Lead(input) + Join(NormAll(Survivors(input)), '/')
  {
    CollapseKeepsFirst(input);
    SurvivorsArePlain(input);
    if Survivors(input) == [] {
      EmptyAssembly(CollapseSlashes(input));
      RootNormal();
    } else {
      AssembledTrim(input, CollapseSlashes(input), Survivors(input));
      RootedJoinNormal(Lead(input), Survivors(input));
    }
  }

  ghost predicate NoDoubleSlash(s: string) {
    forall i | 0 <= i < |s| - 1 :: !(s[i] == '/' && s[i + 1] == '/')
  }

  lemma GluedHasNoDoubleSlash(head: string, rest: string)
    requires '/' !in head && NoDoubleSlash(rest) && (rest != "" ==> rest[0] != '/')
    ensures NoDoubleSlash(head + ['/'] + rest)
  {
    var s, n := head + ['/'] + rest, |head|;
    forall i | 0 <= i < |s| - 1 ensures !(s[i] == '/' && s[i + 1] == '/') {
      if i < n { assert s[i] == head[i]; } else if i > n { assert s[i] == rest[i - n - 1] && s[i + 1] == rest[i - n]; }
    }
  }

  lemma {:induction false} JoinHasNoDoubleSlash(parts: seq<string>)
    requires forall i | 0 <= i < |parts| :: Proper(parts[i])
    ensures NoDoubleSlash(Join(parts, '/'))
  {
    if |parts| == 1 {
      assert forall i | 0 <= i < |parts[0]| :: parts[0][i] in parts[0];
    } else if |parts| > 1 {
      JoinHasNoDoubleSlash(parts[1..]);
      JoinEnds(parts[1..]);
      GluedHasNoDoubleSlash(parts[0], Join(parts[1..], '/'));
    }
  }

  lemma NormAllIsProper(parts: seq<string>)
    requires forall i | 0 <= i < |parts| :: Proper(parts[i])
    ensures forall i | 0 <= i < |parts| :: Proper(NormAll(parts)[i])
  {
    forall i | 0 <= i < |parts| ensures Proper(NormAll(parts)[i]) {
      NormPctAvoids(parts[i], '/');
    }
  }

  /** A path built from proper segments, with or without the leading slash. */
  lemma BuiltPath(lead: string, parts: seq<string>)
    requires lead == "" || lead == "/"
    requires parts != [] && forall i | 0 <= i < |parts| :: Proper(parts[i])
    ensures var p := lead + Join(parts, '/');
            p != "" && p != "/" && Lead(p) == lead && p[|p| - 1] != '/' && NoDoubleSlash(p)
  {
    JoinEnds(parts);
    JoinHasNoDoubleSlash(parts);
    PrefixedBySlash(lead, Join(parts, '/'));
  }

  lemma PrefixedBySlash(lead: string, j: string)
    requires lead == "" || lead == "/"
    requires j != [] && j[0] != '/' && j[|j| - 1] != '/' && NoDoubleSlash(j)
    ensures var p := lead + j; p != "" && p != "/" && Lead(p) == lead && p[|p| - 1] != '/' && NoDoubleSlash(p)
  {
    var p := lead + j;
    assert lead == "" ==> p == j;
    assert lead == "/" ==> forall i | 0 < i < |p| :: p[i] == j[i - 1];
  }

  lemma SplitOfBuiltPath(lead: string, parts: seq<string>)
    requires lead == "" || lead == "/"
    requires parts != [] && forall i | 0 <= i < |parts| :: Proper(parts[i])
    ensures Split(lead + Join(parts, '/'), '/') == (if lead == "/" then [""] else []) + parts
  {
    SplitOfJoin(parts, '/');
    SplitAfterRoot(Join(parts, '/'));
    assert "" + Join(parts, '/') == Join(parts, '/') && [] + parts == parts;
  }

  lemma SplitAfterRoot(rest: string)
    ensures Split("/" + rest, '/') == [""] + Split(rest, '/')
  {
    var p := "/" + rest;
    assert p[0] == '/' && Find(p, '/') == 0 && p[1..] == rest && p[..0] == "";
  }

  ghost predicate HasDot(segments: seq<string>) {
    exists i :: 0 <= i < |segments| && IsDot(segments[i])
  }

  lemma RootShape()
    ensures Split("/", '/') == ["", ""] && Split("", '/') == [""]
  {
    assert Find("", '/') == 0;
    assert "/" + "" == "/";
    SplitAfterRoot("");
  }

  lemma EmptyHasNoSurvivors()
    ensures Survivors("") == []
  {
    RootShape();
    assert Resolve([""]) == PushSegment(Resolve([]), "");
  }

  lemma BuiltPathDots(lead: string, parts: seq<string>)
    requires lead == "" || lead == "/"
    requires parts != [] && forall i | 0 <= i < |parts| :: Proper(parts[i])
    ensures HasDot(Split(lead + Join(parts, '/'), '/')) <==> HasDot(parts)
  {
    SplitOfBuiltPath(lead, parts);
    RootAddsNoDot(parts);
    assert [] + parts == parts;
  }

  ghost predicate WellShaped(out: string) {
    out != "" && NoDoubleSlash(out) && (out[|out| - 1] == '/' <==> out == "/")
  }

  /**
   The documented shape of a canonical path: no empty segment inside it, no trailing
   slash except the root itself, and a dot segment only where decoding exposes one.
   */
  lemma CanonicalPathShape(input: string)
    ensures WellShaped(PathNormal(input))
    ensures HasDot(Split(PathNormal(input), '/')) <==> HasDot(NormAll(Survivors(input)))
  {
    EmptyHasNoSurvivors();
    if input != "" { PathShape(input); }
    if Survivors(input) == [] {
      RootShape();
      assert !HasDot(["", ""]);
    } else {
      SurvivorsArePlain(input);
      NormAllIsProper(Survivors(input));
      BuiltPath(Lead(input), NormAll(Survivors(input)));
      BuiltPathDots(Lead(input), NormAll(Survivors(input)));
    }
  }

  lemma RootAddsNoDot(parts: seq<string>)
    ensures HasDot([""] + parts) <==> HasDot(parts)
  {
    var all := [""] + parts;
    if HasDot(all) {
      var i :| 0 <= i < |all| && IsDot(all[i]);
      assert IsDot(parts[i - 1]);
    }
    if HasDot(parts) {
      var i :| 0 <= i < |parts| && IsDot(parts[i]);
      assert IsDot(all[i + 1]);
    }
  }

  // ---- Idempotence of the path step ----

  lemma CollapseFixed(s: string)
    requires NoDoubleSlash(s)
    ensures CollapseSlashes(s) == s
  {
    if s != [] {
      assert NoDoubleSlash(s[1..]) by {
        forall i | 0 <= i < |s[1..]| - 1 ensures !(s[1..][i] == '/' && s[1..][i + 1] == '/') {
          assert !(s[i + 1] == '/' && s[i + 2] == '/');
        }
      }
      CollapseFixed(s[1..]);
      if |s| > 1 { assert !(s[0] == '/' && s[0 + 1] == '/'); }
    }
  }

  lemma ResolveSkipsEmptyHead(parts: seq<string>)
    ensures Resolve([""] + parts) == Resolve(parts)
  {
    var all := [""] + parts;
    if parts == [] {
      assert all[..0] == [];
    } else {
      ResolveSkipsEmptyHead(parts[..|parts| - 1]);
      assert all[..|all| - 1] == [""] + parts[..|parts| - 1];
    }
  }

  lemma {:induction false} ResolveShrinks(parts: seq<string>)
    ensures |Resolve(parts)| <= |parts|
    ensures HasDot(parts) ==> |Resolve(parts)| < |parts|
  {
    if parts != [] {
      var n := |parts| - 1;
      ResolveShrinks(parts[..n]);
      if HasDot(parts) && !IsDot(parts[n]) {
        var i :| 0 <= i < |parts| && IsDot(parts[i]);
        assert IsDot(parts[..n][i]);
      }
    }
  }

  lemma {:induction false} ResolveOfPlain(parts: seq<string>)
    requires forall i | 0 <= i < |parts| :: Plain(parts[i])
    ensures Resolve(parts) == parts
  {
    if parts != [] {
      ResolveOfPlain(parts[..|parts| - 1]);
      assert parts == parts[..|parts| - 1] + [parts[|parts| - 1]];
    }
  }

  /** Dot segments make the stack strictly shorter; without them nothing changes. */
  lemma ResolveOfProper(parts: seq<string>)
    requires forall i | 0 <= i < |parts| :: Proper(parts[i])
    ensures !HasDot(parts) ==> Resolve(parts) == parts
    ensures HasDot(parts) ==> |Resolve(parts)| < |parts|
  {
    ResolveShrinks(parts);
    if !HasDot(parts) {
      assert forall i | 0 <= i < |parts| :: Plain(parts[i]);
      ResolveOfPlain(parts);
    }
  }

  lemma SurvivorsOfBuiltPath(lead: string, parts: seq<string>)
    requires lead == "" || lead == "/"
    requires parts != [] && forall i | 0 <= i < |parts| :: Proper(parts[i])
    ensures Survivors(lead + Join(parts, '/')) == Resolve(parts)
  {
    BuiltPath(lead, parts);
    CollapseFixed(lead + Join(parts, '/'));
    SplitOfBuiltPath(lead, parts);
    var l := if lead == "/" then [""] else [];
    assert Survivors(lead + Join(parts, '/')) == Resolve(l + parts);
    if lead == "/" { ResolveSkipsEmptyHead(parts); } else { assert [] + parts == parts; }
  }

  lemma {:induction false} ResolveIsDrawnFrom(segments: seq<string>)
    ensures forall seg | seg in Resolve(segments) :: seg in segments
  {
    if segments != [] {
      var front := segments[..|segments| - 1];
      ResolveIsDrawnFrom(front);
      assert forall seg | seg in front :: seg in segments;
      var kept := Resolve(front);
      assert kept != [] ==> forall seg | seg in kept[..|kept| - 1] :: seg in kept;
    }
  }

  lemma NormAllIdempotentExactly(parts: seq<string>)
    ensures NormAll(NormAll(parts)) == NormAll(parts) <==> AllStable(parts)
  {
    var once := NormAll(parts);
    forall i | 0 <= i < |parts| ensures NormAll(once)[i] == once[i] <==> PercentStable(parts[i]) {
      NormPctIdempotentExactly(parts[i]);
    }
    if AllStable(parts) {
      assert NormAll(once) == once;
    }
  }

  /** Different segment lists never build the same path. */
  lemma BuiltPathInjective(lead: string, a: seq<string>, b: seq<string>)
    requires lead == "" || lead == "/"
    requires a != [] && forall i | 0 <= i < |a| :: Proper(a[i])
    requires b != [] && forall i | 0 <= i < |b| :: Proper(b[i])
    requires lead + Join(a, '/') == lead + Join(b, '/')
    ensures a == b
  {
    SplitOfBuiltPath(lead, a);
    SplitOfBuiltPath(lead, b);
    var l := if lead == "/" then [""] else [];
    assert a == (l + a)[|l|..] && b == (l + b)[|l|..];
  }

  /**
   The path step is idempotent on exactly the paths whose surviving segments expose no
   dot segment by decoding (dot removal runs first) and are percent-stable one by one.
   */
  lemma PathIdempotentExactly(input: string)
    ensures PathNormal(PathNormal(input)) == PathNormal(input)
            <==> !HasDot(NormAll(Survivors(input))) && AllStable(Survivors(input))
  {
    var stack := Survivors(input);
    EmptyHasNoSurvivors();
    if stack == [] {
      RootIsFixed();
      if input != "" { PathShape(input); }
    } else {
      PathShape(input);
      SurvivorsArePlain(input);
      NormAllIsProper(stack);
      NormAllIdempotentExactly(stack);
      RenormalizedBuiltPath(Lead(input), NormAll(stack));
    }
  }

  lemma RootIsFixed()
    ensures PathNormal("/") == "/"
  {
    assert "/"[1..] == "" && CollapseSlashes("/") == "/";
    RootShape();
    ResolveSkipsEmptyHead([""]);
    ResolveSkipsEmptyHead([]);
    assert [""] + [""] == ["", ""] && [""] + [] == [""];
    PathShape("/");
  }

  /** Normalizing a built path resolves its dot segments and normalizes the rest. */
  lemma BuiltPathNormal(lead: string, parts: seq<string>)
    requires lead == "" || lead == "/"
    requires parts != [] && forall i | 0 <= i < |parts| :: Proper(parts[i])
    ensures var kept := Resolve(parts);
      PathNormal(lead + Join(parts, '/')) == if kept == [] then "/" else lead + Join(NormAll(kept), '/')
  {
    BuiltPath(lead, parts);
    SurvivorsOfBuiltPath(lead, parts);
    PathShape(lead + Join(parts, '/'));
  }

  lemma RenormalizedBuiltPath(lead: string, parts: seq<string>)
    requires lead == "" || lead == "/"
    requires parts != [] && forall i | 0 <= i < |parts| :: Proper(parts[i])
    ensures PathNormal(lead + Join(parts, '/')) == lead + Join(parts, '/')
            <==> !HasDot(parts) && NormAll(parts) == parts
  {
    BuiltPathNormal(lead, parts);
    RebuiltAgrees(lead, parts);
  }

  /** Rebuilding from what dot removal keeps gives the same path exactly when nothing is dropped or rewritten. */
  lemma RebuiltAgrees(lead: string, parts: seq<string>)
    requires lead == "" || lead == "/"
    requires parts != [] && forall i | 0 <= i < |parts| :: Proper(parts[i])
    ensures var kept := Resolve(parts);
      (if kept == [] then "/" else lead + Join(NormAll(kept), '/')) == lead + Join(parts, '/')
      <==> !HasDot(parts) && NormAll(parts) == parts
  {
    ResolveOfProper(parts);
    if Resolve(parts) == [] { BuiltPath(lead, parts); } else { KeptAgrees(lead, parts, Resolve(parts)); }
  }

  lemma KeptAgrees(lead: string, parts: seq<string>, kept: seq<string>)
    requires lead == "" || lead == "/"
    requires parts != [] && forall i | 0 <= i < |parts| :: Proper(parts[i])
    requires kept != [] && kept == Resolve(parts)
    ensures lead + Join(NormAll(kept), '/') == lead + Join(parts, '/') <==> NormAll(kept) == parts
  {
    ResolvedArePlain(parts);
    NormAllIsProper(kept);
    if lead + Join(NormAll(kept), '/') == lead + Join(parts, '/') { BuiltPathInjective(lead, NormAll(kept), parts); }
  }

  /** A one-segment absolute path. */
  lemma SingleSegment(seg: string)
    requires Proper(seg)
    ensures PathNormal("/" + seg) == if IsDot(seg) then "/" else "/" + NormPct(seg)
  {
    assert Join([seg], '/') == seg;
    assert Resolve([seg]) == PushSegment(Resolve([]), seg);
    SurvivorsOfBuiltPath("/", [seg]);
    PathShape("/" + seg);
  }

  /**
   No segment is a spelling of a dot segment. Paths from the URL parser are like that:
   it resolves the encoded spellings too.
   */
  ghost predicate DotFree(path: string) { !HasDot(NormAll(Split(path, '/'))) }

  ghost predicate Drawn(a: seq<string>, b: seq<string>) { forall x | x in a :: x in b }

  /** Collapsing slashes keeps the first piece and adds none. */
  lemma {:induction false} CollapsedPieces(s: string)
    ensures var a, b := Split(CollapseSlashes(s), '/'), Split(s, '/'); a[0] == b[0] && Drawn(a[1..], b[1..])
  {
    if s != "" {
      CollapsedPieces(s[1..]);
      CollapseKeepsFirst(s);
      if |s| >= 2 && s[0] == '/' && s[1] == '/' {
        SplitOfLeadingSlash(s);
        SplitOfLeadingSlash(s[1..]);
      } else {
        assert CollapseSlashes(s) == [s[0]] + CollapseSlashes(s[1..]);
        assert CollapseSlashes(s)[1..] == CollapseSlashes(s[1..]);
        if s[0] == '/' {
          SplitOfLeadingSlash(s);
          SplitOfLeadingSlash(CollapseSlashes(s));
        } else {
          SplitOfLeadingOther(s);
          SplitOfLeadingOther(CollapseSlashes(s));
        }
      }
    }
  }

  lemma SplitOfLeadingOther(s: string)
    requires s != "" && s[0] != '/'
    ensures var r := Split(s[1..], '/'); Split(s, '/') == [[s[0]] + r[0]] + r[1..]
  {
    var t := s[1..];
    var i := Find(t, '/');
    assert Find(s, '/') == 1 + i;
    assert s[..1 + i] == [s[0]] + t[..i];
    if i < |t| {
      assert s[1 + i + 1..] == t[i + 1..];
      var rest := Split(t[i + 1..], '/');
      assert ([t[..i]] + rest)[1..] == rest;
    } else {
      assert t[..i] == t && s == [s[0]] + t;
    }
  }

  lemma SplitOfLeadingSlash(s: string)
    requires s != "" && s[0] == '/'
    ensures Split(s, '/') == [""] + Split(s[1..], '/')
  {
    assert s == "/" + s[1..];
    SplitAfterRoot(s[1..]);
  }

  lemma DotFreeSurvivors(path: string)
    requires DotFree(path)
    ensures !HasDot(NormAll(Survivors(path)))
  {
    var pieces, all := Split(CollapseSlashes(path), '/'), Split(path, '/');
    CollapsedPieces(path);
    ResolveIsDrawnFrom(pieces);
    var stack := Survivors(path);
    forall i | 0 <= i < |stack| ensures !IsDot(NormAll(stack)[i]) {
      assert stack[i] in pieces;
      assert stack[i] in all by { assert pieces == [pieces[0]] + pieces[1..]; assert all == [all[0]] + all[1..]; }
      var k :| 0 <= k < |all| && all[k] == stack[i];
      assert !IsDot(NormAll(all)[k]);
    }
  }

  /** On the paths the URL parser delivers, only a stray percent sign can spoil idempotence. */
  lemma ReceivedPathIdempotentExactly(path: string)
    requires DotFree(path)
    ensures PathNormal(PathNormal(path)) == PathNormal(path) <==> AllStable(Survivors(path))
  {
    DotFreeSurvivors(path);
    PathIdempotentExactly(path);
  }

  /** A stray percent sign that spells an encoded dot after the first pass. */
  lemma StrayDotSpelling()
    ensures NormPct("%%32e") == "%2e" && NormPct("%2e") == "."
  {
    assert "e"[1..] == "" && NormPct("") == "";
    UnfoldStray("e");
    assert TripletByte('3', '2') == 0x32 && TripletByte('2', 'e') == 0x2E;
    NormPctOfTriplet('3', '2', "e");
    assert ['%', '3', '2'] + "e" == "%32e" && NormTriplet('3', '2') + "e" == "2e";
    NormPctOfStray('%', "%32e");
    assert ['%'] + "%32e" == "%%32e" && ['%'] + "2e" == "%2e";
    NormPctOfTriplet('2', 'e', "");
    assert ['%', '2', 'e'] + "" == "%2e" && NormTriplet('2', 'e') + "" == ".";
  }

  lemma SingleSegmentDotFree(seg: string)
    requires '/' !in seg
    ensures DotFree("/" + seg) <==> !IsDot(NormPct(seg))
  {
    SplitAfterRoot(seg);
    FindAbsent(seg, '/');
    var pieces := [""] + [seg];
    var once := NormAll(pieces);
    assert Split("/" + seg, '/') == pieces;
    assert once[0] == NormPct("") && NormPct("") == "" && once[1] == NormPct(seg);
    if HasDot(once) {
      var i :| 0 <= i < |once| && IsDot(once[i]);
      assert i == 1;
    }
  }

  /** A path the URL parser leaves as it stands, and three passes that all differ. */
  lemma ReceivedPathNotIdempotent()
    ensures DotFree("/" + "%%32e")
    ensures PathNormal("/" + "%%32e") == "/" + "%2e"
    ensures PathNormal("/" + "%2e") == "/" + "." && PathNormal("/" + ".") == "/"
  {
    StrayDotSpelling();
    SingleSegmentDotFree("%%32e");
    SingleSegment("%%32e");
    SingleSegment("%2e");
    SingleSegment(".");
  }

  // ---- The path step against section 5.2.4 of RFC 3986 ----

  /** "Remove the last segment and its preceding slash from the output buffer." */
  function RemoveLast(out: string): string {
    if out == "" then ""
    else if out[|out| - 1] == '/' then out[..|out| - 1]
    else RemoveLast(out[..|out| - 1])
  }

  /** Rules A to E of the RFC's loop over an input buffer and an output buffer. */
  function RfcRemoveDots(input: string, out: string): string
    decreases |input|
  {
    if input == "" then out
    else if "../" <= input then RfcRemoveDots(input[3..], out)
    else if "./" <= input then RfcRemoveDots(input[2..], out)
    else if "/./" <= input then RfcRemoveDots(input[2..], out)
    else if input == "/." then RfcRemoveDots("/", out)
    else if "/../" <= input then RfcRemoveDots(input[3..], RemoveLast(out))
    else if input == "/.." then RfcRemoveDots("/", RemoveLast(out))
    else if IsDot(input) then out
    else
      var n := 1 + Find(input[1..], '/');
      RfcRemoveDots(input[n..], out + input[..n])
  }

  /** The output buffer that corresponds to a segment stack. */
  function Rendered(stack: seq<string>): string {
    if stack == [] then "" else Rendered(stack[..|stack| - 1]) + ("/" + stack[|stack| - 1])
  }

  lemma {:induction false} RemoveLastOf(base: string, seg: string)
    requires '/' !in seg
    ensures RemoveLast(base + ("/" + seg)) == base
  {
    var s := base + ("/" + seg);
    if seg == "" {
      assert s[|s| - 1] == '/' && s[..|s| - 1] == base;
    } else {
      var front := seg[..|seg| - 1];
      RemoveLastOf(base, front);
      assert s[|s| - 1] == seg[|seg| - 1] && seg[|seg| - 1] in seg;
      assert s[..|s| - 1] == base + ("/" + front);
    }
  }

  lemma RfcOfRoot(out: string)
    ensures RfcRemoveDots("/", out) == out + "/"
  {
    assert "/"[1..] == "" && Find("", '/') == 0;
    assert "/"[..1] == "/";
  }

  /** One round of the RFC loop on a segment that is not a dot segment: rule E. */
  lemma RfcPlain(seg: string, rest: string, out: string)
    requires '/' !in seg && !IsDot(seg) && (rest == "" || rest[0] == '/')
    ensures RfcRemoveDots("/" + seg + rest, out) == RfcRemoveDots(rest, out + ("/" + seg))
  {
    var input := "/" + seg + rest;
    assert input[1..] == seg + rest;
    if rest == "" {
      assert seg + rest == seg;
      FindAbsent(seg, '/');
    } else {
      assert seg + rest == seg + ['/'] + rest[1..];
      FindSplits(seg, '/', rest[1..]);
    }
    assert input[..1 + |seg|] == "/" + seg && input[1 + |seg|..] == rest;
    NotDotPrefix(seg, rest);
  }

  lemma NotDotPrefix(seg: string, rest: string)
    requires '/' !in seg && !IsDot(seg) && (rest == "" || rest[0] == '/')
    ensures var input := "/" + seg + rest;
      !("../" <= input) && !("./" <= input) && !("/./" <= input) && input != "/."
      && !("/../" <= input) && input != "/.." && !IsDot(input)
  {
    var input := "/" + seg + rest;
    assert input[0] == '/';
    assert forall i | 0 <= i < |seg| :: input[i + 1] == seg[i] && seg[i] in seg;
    assert rest != "" ==> input[|seg| + 1] == '/';
    assert |seg| >= 2 ==> input[2] == seg[1] && seg[1] != '/';
    assert |seg| >= 3 ==> input[3] == seg[2] && seg[2] != '/';
  }

  /** Rule B: a single dot goes. */
  lemma RfcInnerDot(rest: string, out: string)
    requires rest != "" && rest[0] == '/'
    ensures RfcRemoveDots("/." + rest, out) == RfcRemoveDots(rest, out)
  {
    var input := "/." + rest;
    assert input[0] == '/' && input[1] == '.' && input[2] == '/';
    assert "/./" <= input && input[2..] == rest;
  }

  /** Rule C: a double dot also takes the last output segment. */
  lemma RfcInnerDotDot(rest: string, out: string)
    requires rest != "" && rest[0] == '/'
    ensures RfcRemoveDots("/.." + rest, out) == RfcRemoveDots(rest, RemoveLast(out))
  {
    var input := "/.." + rest;
    assert input[0] == '/' && input[1] == '.' && input[2] == '.' && input[3] == '/';
    assert "/../" <= input && input[3..] == rest;
  }

  lemma RfcFinalDots(out: string)
    ensures RfcRemoveDots("/.", out) == RfcRemoveDots("/", out)
    ensures RfcRemoveDots("/..", out) == RfcRemoveDots("/", RemoveLast(out))
  {
    assert "/."[1] == '.' && "/.."[2] == '.';
  }

  ghost predicate OnlyLastEmpty(segments: seq<string>) {
    && segments != []
    && (forall i | 0 <= i < |segments| :: '/' !in segments[i])
    && (forall i | 0 <= i < |segments| - 1 :: segments[i] != "")
  }

  function Trail(segments: seq<string>): string
    requires segments != []
  {
    var last := segments[|segments| - 1];
    if last == "" || IsDot(last) then "/" else ""
  }

  lemma RenderedPush(stack: seq<string>, seg: string)
    requires forall i | 0 <= i < |stack| :: Plain(stack[i])
    requires '/' !in seg
    ensures seg == ".." ==> Rendered(PushSegment(stack, seg)) == RemoveLast(Rendered(stack))
    ensures Plain(seg) ==> Rendered(PushSegment(stack, seg)) == Rendered(stack) + ("/" + seg)
    ensures forall i | 0 <= i < |PushSegment(stack, seg)| :: Plain(PushSegment(stack, seg)[i])
  {
    if stack != [] { RemoveLastOf(Rendered(stack[..|stack| - 1]), stack[|stack| - 1]); }
    assert (stack + [seg])[..|stack|] == stack;
  }

  /** A segment with more input behind it. */
  lemma RfcInnerStep(stack: seq<string>, seg: string, rest: string)
    requires forall i | 0 <= i < |stack| :: Plain(stack[i])
    requires '/' !in seg && seg != "" && rest != "" && rest[0] == '/'
    ensures RfcRemoveDots("/" + seg + rest, Rendered(stack)) == RfcRemoveDots(rest, Rendered(PushSegment(stack, seg)))
  {
    RenderedPush(stack, seg);
    if IsDot(seg) {
      RfcInnerDots(seg, rest, Rendered(stack));
    } else {
      RfcPlain(seg, rest, Rendered(stack));
    }
  }

  lemma RfcInnerDots(seg: string, rest: string, out: string)
    requires IsDot(seg) && rest != "" && rest[0] == '/'
    ensures RfcRemoveDots("/" + seg + rest, out)
            == RfcRemoveDots(rest, if seg == "." then out else RemoveLast(out))
  {
    if seg == "." {
      assert "/" + seg == "/.";
      RfcInnerDot(rest, out);
    } else {
      assert "/" + seg == "/..";
      RfcInnerDotDot(rest, out);
    }
  }

  /** The last segment. */
  lemma RfcLastStep(stack: seq<string>, seg: string)
    requires forall i | 0 <= i < |stack| :: Plain(stack[i])
    requires '/' !in seg
    ensures RfcRemoveDots("/" + seg, Rendered(stack)) == Rendered(PushSegment(stack, seg)) + Trail([seg])
  {
    RenderedPush(stack, seg);
    var next := Rendered(PushSegment(stack, seg));
    assert "/" + seg + "" == "/" + seg;
    if seg == "" {
      assert "/" + seg == "/";
      RfcOfRoot(next);
    } else if IsDot(seg) {
      assert "/" + seg == if seg == "." then "/." else "/..";
      RfcFinalDots(Rendered(stack));
      RfcOfRoot(next);
    } else {
      RfcPlain(seg, "", Rendered(stack));
      assert next + "" == next;
    }
  }

  function ResolveFrom(stack: seq<string>, segments: seq<string>): seq<string>
    decreases |segments|
  {
    if segments == [] then stack else ResolveFrom(PushSegment(stack, segments[0]), segments[1..])
  }

  lemma {:induction false} ResolveFromIsResolve(done: seq<string>, segments: seq<string>)
    ensures ResolveFrom(Resolve(done), segments) == Resolve(done + segments)
    decreases |segments|
  {
    if segments == [] {
      assert done + segments == done;
    } else {
      var done' := done + [segments[0]];
      assert done'[..|done|] == done && done' + segments[1..] == done + segments;
      ResolveFromIsResolve(done', segments[1..]);
    }
  }

  lemma RootedJoin(segments: seq<string>)
    requires |segments| > 1
    ensures "/" + Join(segments, '/') == "/" + segments[0] + ("/" + Join(segments[1..], '/'))
  {
    var a, b := segments[0], Join(segments[1..], '/');
    assert "/" + (a + ['/'] + b) == "/" + a + ("/" + b);
  }

  /** The RFC's buffers and the code's stack advance in step. */
  lemma {:induction false} RfcFollowsStack(stack: seq<string>, segments: seq<string>)
    requires OnlyLastEmpty(segments)
    requires forall i | 0 <= i < |stack| :: Plain(stack[i])
    ensures RfcRemoveDots("/" + Join(segments, '/'), Rendered(stack))
            == Rendered(ResolveFrom(stack, segments)) + Trail(segments)
    decreases |segments|
  {
    var seg, next, tail := segments[0], PushSegment(stack, segments[0]), segments[1..];
    RenderedPush(stack, seg);
    if |segments| == 1 {
      RfcLastStep(stack, seg);
      assert ResolveFrom(next, tail) == next;
      assert segments == [seg];
    } else {
      assert OnlyLastEmpty(tail) && Trail(tail) == Trail(segments);
      RootedJoin(segments);
      RfcInnerStep(stack, seg, "/" + Join(tail, '/'));
      RfcFollowsStack(next, tail);
    }
  }

  lemma CollapseHasNoDoubleSlash(s: string)
    ensures NoDoubleSlash(CollapseSlashes(s))
  {
    if s != [] && !(|s| >= 2 && s[0] == '/' && s[1] == '/') {
      var t := CollapseSlashes(s[1..]);
      if |s| > 1 { CollapseKeepsFirst(s[1..]); }
      var c := [s[0]] + t;
      forall i | 0 <= i < |c| - 1 ensures !(c[i] == '/' && c[i + 1] == '/') {
        if i > 0 { assert !(t[i - 1] == '/' && t[i - 1 + 1] == '/'); }
      }
    }
  }

  lemma {:induction false} SplitOfCollapsed(s: string)
    requires NoDoubleSlash(s) && (s == "" || s[0] != '/')
    ensures OnlyLastEmpty(Split(s, '/'))
    decreases |s|
  {
    var i := Find(s, '/');
    if i < |s| {
      var tail := s[i + 1..];
      assert NoDoubleSlash(tail) by {
        forall k | 0 <= k < |tail| - 1 ensures !(tail[k] == '/' && tail[k + 1] == '/') {
          assert !(s[i + 1 + k] == '/' && s[i + 1 + k + 1] == '/');
        }
      }
      if tail != "" { assert !(s[i] == '/' && s[i + 1] == '/'); }
      SplitOfCollapsed(tail);
      assert s[..i] != "";
    }
  }

  lemma {:induction false} RenderedIsJoined(stack: seq<string>)
    requires stack != []
    ensures Rendered(stack) == "/" + Join(stack, '/')
  {
    var front, last := stack[..|stack| - 1], stack[|stack| - 1];
    if front == [] {
      assert Rendered(front) == "" && Join(stack, '/') == last;
    } else {
      RenderedIsJoined(front);
      JoinSnoc(front, last);
      assert stack == front + [last];
      Regroup("/", Join(front, '/'), "/" + last);
    }
  }

  lemma {:induction false} JoinSnoc(front: seq<string>, last: string)
    requires front != []
    ensures Join(front + [last], '/') == Join(front, '/') + ("/" + last)
  {
    if |front| == 1 {
      assert (front + [last])[1..] == [last];
    } else {
      assert (front + [last])[1..] == front[1..] + [last];
      JoinSnoc(front[1..], last);
      Regroup(front[0] + ['/'], Join(front[1..], '/'), "/" + last);
    }
  }

  /**
   For absolute paths the segment stack computes what the RFC's two-buffer loop
   computes on the slash-collapsed path, up to the trailing slash rule 4 strips.
   */
  lemma StackFollowsRfc3986(input: string)
    requires input != "" && input[0] == '/'
    ensures PathNormal(input) == NormPct(TrimSlash(RfcRemoveDots(CollapseSlashes(input), "")))
  {
    CollapseKeepsFirst(input);
    CollapseHasNoDoubleSlash(input);
    var path := CollapseSlashes(input);
    var rest := path[1..];
    assert path == "/" + rest;
    assert NoDoubleSlash(rest) by {
      forall k | 0 <= k < |rest| - 1 ensures !(rest[k] == '/' && rest[k + 1] == '/') {
        assert !(path[k + 1] == '/' && path[k + 1 + 1] == '/');
      }
    }
    if rest != "" { assert !(path[0] == '/' && path[0 + 1] == '/'); }
    SplitOfCollapsed(rest);
    SplitAfterRoot(rest);
    var segments := Split(rest, '/');
    ResolveSkipsEmptyHead(segments);
    JoinOfSplit(rest, '/');
    RfcFollowsStack([], segments);
    ResolveFromIsResolve([], segments);
    assert [] + segments == segments;
    RenderedTrimmed(input, Trail(segments));
  }

  lemma RenderedTrimmed(input: string, trail: string)
    requires input != "" && input[0] == '/' && (trail == "" || trail == "/")
    ensures PathNormal(input) == NormPct(TrimSlash(Rendered(Survivors(input)) + trail))
  {
    PathShape(input);
    SurvivorsArePlain(input);
    RenderedTrim(Survivors(input), trail);
    if Survivors(input) == [] { RootNormal(); } else { RootedJoinNormal("/", Survivors(input)); }
  }

  lemma RenderedTrim(stack: seq<string>, trail: string)
    requires (trail == "" || trail == "/") && forall i | 0 <= i < |stack| :: Plain(stack[i])
    ensures TrimSlash(Rendered(stack) + trail) == if stack == [] then "/" else "/" + Join(stack, '/')
  {
    if stack != [] {
      JoinEnds(stack);
      RenderedIsJoined(stack);
      TrimRooted("/", Join(stack, '/'), trail);
    }
  }

  // ---- Collapsing slashes takes nothing but empty segments ----

  function NonEmpty(segments: seq<string>): seq<string> {
    if segments == [] then []
    else if segments[0] == "" then NonEmpty(segments[1..])
    else [segments[0]] + NonEmpty(segments[1..])
  }

  lemma NonEmptyHead(a: string, rest: seq<string>)
    ensures NonEmpty([a] + rest) == (if a == "" then [] else [a]) + NonEmpty(rest)
  {
    assert ([a] + rest)[1..] == rest;
  }

  /** The non-empty segments stand in the collapsed text as they stood before. */
  lemma {:induction false} CollapseKeepsSegments(s: string)
    ensures NoDoubleSlash(CollapseSlashes(s))
    ensures NonEmpty(Split(CollapseSlashes(s), '/')) == NonEmpty(Split(s, '/'))
    decreases |s|
  {
    CollapseHasNoDoubleSlash(s);
    if s != "" {
      CollapseKeepsSegments(s[1..]);
      CollapseKeepsFirst(s);
      if |s| >= 2 && s[0] == '/' && s[1] == '/' {
        SplitOfLeadingSlash(s);
        NonEmptyHead("", Split(s[1..], '/'));
      } else {
        var c := CollapseSlashes(s);
        assert c == [s[0]] + CollapseSlashes(s[1..]) && c[1..] == CollapseSlashes(s[1..]);
        if s[0] == '/' {
          SplitOfLeadingSlash(s);
          SplitOfLeadingSlash(c);
          NonEmptyHead("", Split(s[1..], '/'));
          NonEmptyHead("", Split(c[1..], '/'));
        } else {
          SplitOfLeadingOther(s);
          SplitOfLeadingOther(c);
          CollapsedPieces(s[1..]);
          LongerHead(s[0], Split(c[1..], '/'), Split(s[1..], '/'));
        }
      }
    }
  }

  lemma LongerHead(c: char, a: seq<string>, b: seq<string>)
    requires a != [] && b != [] && a[0] == b[0] && NonEmpty(a) == NonEmpty(b)
    ensures NonEmpty([[c] + a[0]] + a[1..]) == NonEmpty([[c] + b[0]] + b[1..])
  {
    NonEmptyHead([c] + a[0], a[1..]);
    NonEmptyHead([c] + b[0], b[1..]);
    assert a == [a[0]] + a[1..] && b == [b[0]] + b[1..];
    NonEmptyHead(a[0], a[1..]);
    NonEmptyHead(b[0], b[1..]);
    SamePrefix(if a[0] == "" then [] else [a[0]], NonEmpty(a[1..]), NonEmpty(b[1..]));
  }
}
