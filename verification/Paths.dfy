/** Keycloak group paths as text and as segment lists (normalizeAbsolutePath, NormalizeGroupPath,
    path.Clean/Dir/Base). */
module Paths {
  import opened Text

  /** A segment that survives path.Clean. */
  predicate CleanSegment(s: string) {
    s != "" && s != "." && s != ".." && '/' !in s
  }

  predicate CleanSegments(segs: seq<string>) {
    forall i | 0 <= i < |segs| :: CleanSegment(segs[i])
  }

  predicate SlashFree(parts: seq<string>) {
    forall i | 0 <= i < |parts| :: '/' !in parts[i]
  }

  /** "/a/b" for [a, b]; the empty text for no segments. */
  function Flat(segs: seq<string>): string {
    if segs == [] then "" else "/" + segs[0] + Flat(segs[1..])
  }

  function PathOf(segs: seq<string>): string {
    if segs == [] then "/" else Flat(segs)
  }

  function SplitSlash(s: string): (parts: seq<string>)
    ensures parts != []
  {
    if s == "" then [""]
    else
      var rest := SplitSlash(s[1..]);
      if s[0] == '/' then [""] + rest else [[s[0]] + rest[0]] + rest[1..]
  }

  /** The rule of path.Clean on a rooted path: drop empty and "." segments, let ".." take back one segment. */
  function Reduce(parts: seq<string>, stack: seq<string>): seq<string> {
    if parts == [] then stack
    else
      var p, rest := parts[0], parts[1..];
      if p == "" || p == "." then Reduce(rest, stack)
      else if p == ".." then Reduce(rest, if stack == [] then [] else stack[..|stack| - 1])
      else Reduce(rest, stack + [p])
  }

  function Rooted(value: string): string {
    if HasPrefix(value, "/") then value else "/" + value
  }

  function CleanedSegments(rooted: string): seq<string> {
    Reduce(SplitSlash(rooted), [])
  }

  /** path.Clean on a rooted path. */
  function Clean(rooted: string): string {
    PathOf(CleanedSegments(rooted))
  }

  /** The segments a text path names once normalised; none for blank text and for the root. */
  function Segments(value: string): seq<string> {
    if TrimSpace(value) == "" then [] else CleanedSegments(Rooted(TrimSpace(value)))
  }

  /** normalizeAbsolutePath of the client and NormalizeGroupPath of the validator: the same code twice. */
  function Normalize(value: string): string {
    NormalizeTrimmed(TrimSpace(value))
  }

  function NormalizeTrimmed(trimmed: string): string {
    if trimmed == "" then ""
    else
      var cleaned := Clean(Rooted(trimmed));
      if cleaned == "." then "" else cleaned
  }

  /** The index of the last slash; 0 when there is none. */
  function LastSlash(s: string): nat {
    if s == "" then 0
    else if s[|s| - 1] == '/' then |s| - 1
    else LastSlash(s[..|s| - 1])
  }

  lemma {:induction false} LastSlashFacts(s: string)
    requires s != ""
    ensures LastSlash(s) < |s|
  {
    if |s| > 1 && s[|s| - 1] != '/' { LastSlashFacts(s[..|s| - 1]); }
  }

  /** path.Base on a cleaned path other than the root: what follows the last slash. */
  function BaseName(cleaned: string): string
    requires cleaned != ""
  {
    LastSlashFacts(cleaned);
    cleaned[LastSlash(cleaned) + 1..]
  }

  /** path.Dir: everything up to the last slash, cleaned. */
  function DirName(cleaned: string): string
    requires cleaned != ""
  {
    LastSlashFacts(cleaned);
    Clean(cleaned[..LastSlash(cleaned) + 1])
  }

  /** groupNameFromPath and GroupNameFromPath. */
  function GroupName(groupPath: string): string {
    var p := Normalize(groupPath);
    if p == "" || p == "/" then "" else BaseName(p)
  }

  /** parentGroupPath: "" at the top level. */
  function Parent(groupPath: string): string {
    var p := Normalize(groupPath);
    if p == "" || p == "/" then ""
    else
      var dir := DirName(p);
      if dir == "." || dir == "/" then "" else dir
  }

  // ----- what normalising leaves -----

  lemma {:induction false} SplitIsSlashFree(s: string)
    ensures SlashFree(SplitSlash(s))
  {
    if s != "" { SplitIsSlashFree(s[1..]); }
  }

  lemma {:induction false} ReduceFacts(parts: seq<string>, stack: seq<string>)
    requires SlashFree(parts) && CleanSegments(stack)
    ensures CleanSegments(Reduce(parts, stack))
    ensures |Reduce(parts, stack)| <= |stack| + |parts|
    ensures parts != [] && parts[0] == "" ==> |Reduce(parts, stack)| < |stack| + |parts|
  {
    if parts != [] {
      var p, rest := parts[0], parts[1..];
      if p == "" || p == "." {
        ReduceFacts(rest, stack);
      } else if p == ".." {
        ReduceFacts(rest, if stack == [] then [] else stack[..|stack| - 1]);
      } else {
        ReduceFacts(rest, stack + [p]);
      }
    }
  }

  lemma {:induction false} SegmentsAreClean(value: string)
    ensures CleanSegments(Segments(value))
  {
    var rooted := Rooted(TrimSpace(value));
    SplitIsSlashFree(rooted);
    ReduceFacts(SplitSlash(rooted), []);
  }

  lemma {:induction false} PathStart(segs: seq<string>)
    ensures PathOf(segs) != "" && PathOf(segs)[0] == '/' && HasPrefix(PathOf(segs), "/")
    ensures segs != [] ==> PathOf(segs) == Flat(segs)
  {
    var p := PathOf(segs);
    assert p[..1] == "/";
  }

  // ----- the two views agree -----

  /** Non-empty results are rooted, and no segment of them is empty, "." or "..". */
  lemma {:induction false} NormalizeRooted(value: string)
    ensures CleanSegments(Segments(value))
    ensures Normalize(value) == if TrimSpace(value) == "" then "" else PathOf(Segments(value))
    ensures Normalize(value) != "" ==> HasPrefix(Normalize(value), "/")
  {
    SegmentsAreClean(value);
    PathStart(Segments(value));
    PathNotDot(Segments(value));
  }

  lemma {:induction false} PathNotDot(segs: seq<string>)
    requires CleanSegments(segs)
    ensures PathOf(segs) != "." && (segs != [] ==> PathOf(segs) != "/")
  {
    PathStart(segs);
    if segs != [] {
      assert CleanSegment(segs[0]);
      assert |Flat(segs)| == 1 + |segs[0]| + |Flat(segs[1..])|;
    }
  }

  lemma {:induction false} SplitWord(word: string, s: string)
    requires '/' !in word
    ensures SplitSlash(word + s) == [word + SplitSlash(s)[0]] + SplitSlash(s)[1..]
  {
    var parts := SplitSlash(s);
    if word == "" {
      assert word + s == s && word + parts[0] == parts[0];
    } else {
      assert (word + s)[1..] == word[1..] + s;
      SplitWord(word[1..], s);
      var rest := SplitSlash(word[1..] + s);
      assert [word[0]] + rest[0] == word + parts[0];
      assert rest[1..] == parts[1..];
    }
  }

  lemma {:induction false} SplitFlat(segs: seq<string>)
    requires SlashFree(segs)
    ensures SplitSlash(Flat(segs)) == [""] + segs
  {
    if segs != [] {
      var rest := segs[1..];
      SplitFlat(rest);
      SplitWord(segs[0], Flat(rest));
      assert Flat(segs)[1..] == segs[0] + Flat(rest);
      assert segs[0] + "" == segs[0];
      assert ([""] + rest)[1..] == rest && segs == [segs[0]] + rest;
    }
  }

  lemma {:induction false} ReduceClean(segs: seq<string>, stack: seq<string>)
    requires CleanSegments(segs)
    ensures Reduce(segs, stack) == stack + segs
    ensures Reduce(segs + [""], stack) == stack + segs
  {
    if segs == [] {
      assert stack + segs == stack && segs + [""] == [""];
      assert [""][1..] == [];
    } else {
      ReduceClean(segs[1..], stack + [segs[0]]);
      assert (segs + [""])[1..] == segs[1..] + [""];
      assert stack + [segs[0]] + segs[1..] == stack + segs;
    }
  }

  /** Cleaning a printed path, or one with a slash too many at its end, finds its segments. */
  lemma {:induction false} CleanFlat(segs: seq<string>)
    requires CleanSegments(segs)
    ensures CleanedSegments(Flat(segs)) == segs && CleanedSegments(Flat(segs) + "/") == segs
  {
    SplitFlat(segs);
    ReduceClean(segs, []);
    assert [] + segs == segs && ([""] + segs)[1..] == segs;
    SplitFlat(segs + [""]);
    FlatSnoc(segs, "");
    assert Flat(segs) + ("/" + "") == Flat(segs) + "/";
    assert ([""] + (segs + [""]))[1..] == segs + [""];
  }

  lemma {:induction false} CleanPath(segs: seq<string>)
    requires CleanSegments(segs)
    ensures CleanedSegments(PathOf(segs)) == segs
  {
    CleanFlat(segs);
    if segs == [] {
      assert Flat(segs) + "/" == "/";
    }
  }

  /** Different segment lists are spelled differently. */
  lemma {:induction false} PathInjective(a: seq<string>, b: seq<string>)
    requires CleanSegments(a) && CleanSegments(b) && PathOf(a) == PathOf(b)
    ensures a == b
  {
    CleanPath(a);
    CleanPath(b);
  }

  /** Printing a segment list and reading it back, when the text does not end in whitespace. */
  lemma {:induction false} SegmentsOfPath(segs: seq<string>)
    requires CleanSegments(segs) && Trimmed(PathOf(segs))
    ensures Segments(PathOf(segs)) == segs && Normalize(PathOf(segs)) == PathOf(segs)
  {
    CleanPath(segs);
    PathStart(segs);
    PathNotDot(segs);
    var p := PathOf(segs);
    assert TrimSpace(p) == p && Rooted(p) == p;
  }

  lemma {:induction false} FlatAppend(a: seq<string>, b: seq<string>)
    ensures Flat(a + b) == Flat(a) + Flat(b)
  {
    if a == [] {
      assert a + b == b;
    } else {
      FlatAppend(a[1..], b);
      assert (a + b)[1..] == a[1..] + b && (a + b)[0] == a[0];
    }
  }

  lemma {:induction false} FlatSnoc(init: seq<string>, name: string)
    ensures Flat(init + [name]) == Flat(init) + ("/" + name)
  {
    FlatAppend(init, [name]);
    assert [name][1..] == [];
    assert Flat([name]) == "/" + name + Flat([]) == "/" + name;
  }

  lemma {:induction false} LastSlashOf(head: string, word: string, s: string)
    requires '/' !in word && s == head + ("/" + word)
    ensures LastSlash(s) == |head|
    ensures s[..|head| + 1] == head + "/" && s[|head| + 1..] == word
  {
    if word != "" {
      var n := |word| - 1;
      assert s[|s| - 1] == word[n] && word[n] in word;
      assert s[..|s| - 1] == head + ("/" + word[..n]);
      LastSlashOf(head, word[..n], s[..|s| - 1]);
    }
  }

  /** Base and directory of a printed path are its last segment and the path of the others. */
  lemma {:induction false} BaseAndDir(init: seq<string>, name: string, p: string)
    requires CleanSegments(init) && CleanSegment(name) && p == PathOf(init + [name])
    ensures p != "" && p != "/" && BaseName(p) == name && DirName(p) == PathOf(init)
  {
    FlatSnoc(init, name);
    LastSlashOf(Flat(init), name, p);
    CleanFlat(init);
  }

  /** The same for the program's own helpers, which normalise first. */
  lemma {:induction false} BaseAndParent(init: seq<string>, name: string, p: string)
    requires CleanSegments(init) && CleanSegment(name)
    requires Normalize(p) == PathOf(init + [name])
    ensures GroupName(p) == name && Parent(p) == Flat(init)
  {
    BaseAndDir(init, name, Normalize(p));
    PathNotDot(init);
  }

  /** A normal non-root path is its parent, a slash, and its base name. */
  lemma {:induction false} PathIsParentAndBase(p: string)
    requires Normalize(p) == p && p != "" && p != "/"
    ensures p == Parent(p) + ("/" + GroupName(p))
  {
    NormalizeRooted(p);
    var segs := Segments(p);
    var init, name := segs[..|segs| - 1], segs[|segs| - 1];
    assert segs == init + [name];
    BaseAndParent(init, name, p);
    FlatSnoc(init, name);
  }

  // ----- length: normalising never makes a rooted path longer -----

  function TotalLength(parts: seq<string>): nat {
    if parts == [] then 0 else 1 + |parts[0]| + TotalLength(parts[1..])
  }

  lemma {:induction false} FlatLength(segs: seq<string>)
    ensures |Flat(segs)| == TotalLength(segs)
  {
    if segs != [] { FlatLength(segs[1..]); }
  }

  lemma {:induction false} SplitLength(s: string)
    ensures TotalLength(SplitSlash(s)) == |s| + 1
  {
    if s != "" {
      SplitLength(s[1..]);
      var rest := SplitSlash(s[1..]);
      if s[0] == '/' {
        assert ([""] + rest)[1..] == rest;
      } else {
        assert ([[s[0]] + rest[0]] + rest[1..])[1..] == rest[1..];
      }
    }
  }

  lemma {:induction false} TotalLengthSnoc(init: seq<string>, name: string)
    ensures TotalLength(init + [name]) == TotalLength(init) + 1 + |name|
  {
    if init == [] {
      assert [name][1..] == [];
    } else {
      TotalLengthSnoc(init[1..], name);
      assert (init + [name])[1..] == init[1..] + [name];
    }
  }

  lemma {:induction false} ReduceLength(parts: seq<string>, stack: seq<string>)
    ensures TotalLength(Reduce(parts, stack)) <= TotalLength(stack) + TotalLength(parts)
  {
    if parts != [] {
      var p, rest := parts[0], parts[1..];
      if p == "" || p == "." {
        ReduceLength(rest, stack);
      } else if p == ".." {
        if stack == [] {
          ReduceLength(rest, []);
        } else {
          var n := |stack| - 1;
          TotalLengthSnoc(stack[..n], stack[n]);
          assert stack[..n] + [stack[n]] == stack;
          ReduceLength(rest, stack[..n]);
        }
      } else {
        TotalLengthSnoc(stack, p);
        ReduceLength(rest, stack + [p]);
      }
    }
  }

  /** Cleaning a rooted path does not lengthen it, and finds at most as many segments as it has slashes. */
  lemma {:induction false} CleanBounds(rooted: string)
    requires rooted != "" && rooted[0] == '/'
    ensures |PathOf(CleanedSegments(rooted))| <= |rooted|
    ensures |CleanedSegments(rooted)| <= Slashes(rooted)
  {
    var parts, segs := SplitSlash(rooted), CleanedSegments(rooted);
    SplitLength(rooted);
    SplitCount(rooted);
    assert parts[0] == "" && Reduce(parts, []) == Reduce(parts[1..], []);
    ReduceLength(parts[1..], []);
    SplitIsSlashFree(rooted);
    ReduceFacts(parts, []);
    FlatLength(segs);
  }

  /** A normal path has no whitespace at its ends. */
  lemma {:induction false} TrimmedPath(p: string)
    requires Normalize(p) == p
    ensures Trimmed(p)
  {
    if p != "" {
      NormalizeRooted(p);
      PathStart(Segments(p));
      TrimRooted(p);
      CleanBounds(TrimSpace(p));
    }
  }

  /** Trimming a rooted path only cuts its tail. */
  lemma {:induction false} TrimRooted(p: string)
    requires p != "" && p[0] == '/'
    ensures var t := TrimSpace(p); t <= p && t != "" && t[0] == '/' && Rooted(t) == t
  {
    VisibleNotSpace('/');
    assert TrimLeft(p) == p;
    TrimRightFacts(p);
    TrimRightKeeps(p);
    assert TrimSpace(p)[..1] == "/";
  }

  lemma {:induction false} TrimRightKeeps(s: string)
    requires s != "" && !IsSpace(s[0])
    ensures TrimRight(s) != ""
  {
    if IsSpace(s[|s| - 1]) { TrimRightKeeps(s[..|s| - 1]); }
  }

  /** Normalising twice is normalising once, if and only if the last segment does not end in whitespace. */
  lemma {:induction false} NormalizeIdempotent(value: string)
    ensures Normalize(Normalize(value)) == Normalize(value) <==>
            var segs := Segments(value); segs == [] || !EndsInSpace(segs[|segs| - 1])
  {
    NormalizeRooted(value);
    if TrimSpace(value) != "" {
      NormalizePath(Segments(value), Normalize(value));
    }
  }

  /** So one pass is enough for every text of whose slash-separated parts none ends in whitespace. */
  lemma {:induction false} NormalizeSettles(value: string)
    requires forall part | part in SplitSlash(TrimSpace(value)) :: !EndsInSpace(part)
    ensures Normalize(Normalize(value)) == Normalize(value)
  {
    NormalizeIdempotent(value);
    var trimmed, segs := TrimSpace(value), Segments(value);
    if segs != [] {
      ReduceTakes(SplitSlash(Rooted(trimmed)), [], segs[|segs| - 1]);
      assert Rooted(trimmed) != trimmed ==> Rooted(trimmed)[1..] == trimmed;
    }
  }

  /** Cleaning makes no new segments. */
  lemma {:induction false} ReduceTakes(parts: seq<string>, stack: seq<string>, seg: string)
    requires seg in Reduce(parts, stack)
    ensures seg in parts || seg in stack
  {
    if parts != [] {
      var p, rest := parts[0], parts[1..];
      if p == "" || p == "." {
        ReduceTakes(rest, stack, seg);
      } else if p == ".." {
        ReduceTakes(rest, if stack == [] then [] else stack[..|stack| - 1], seg);
      } else {
        ReduceTakes(rest, stack + [p], seg);
      }
    }
  }

  lemma {:induction false} NormalizePath(segs: seq<string>, p: string)
    requires CleanSegments(segs) && p == PathOf(segs)
    ensures Normalize(p) == p <==> segs == [] || !EndsInSpace(segs[|segs| - 1])
  {
    LastOfPath(segs);
    if Trimmed(p) {
      SegmentsOfPath(segs);
    } else if Normalize(p) == p {
      TrimmedPath(p);
    }
  }

  lemma {:induction false} LastOfPath(segs: seq<string>)
    requires CleanSegments(segs)
    ensures Trimmed(PathOf(segs)) <==> segs == [] || !EndsInSpace(segs[|segs| - 1])
  {
    VisibleNotSpace('/');
    PathStart(segs);
    if segs != [] {
      var init, name := segs[..|segs| - 1], segs[|segs| - 1];
      assert segs == init + [name];
      FlatSnoc(init, name);
    }
  }

  predicate EndsInSpace(s: string) {
    s != "" && IsSpace(s[|s| - 1])
  }

  // ----- what cleaning does, one segment at a time -----

  lemma {:induction false} SplitAppend(a: string, word: string)
    requires '/' !in word
    ensures SplitSlash(a + ("/" + word)) == SplitSlash(a) + [word]
  {
    if a == "" {
      SplitWord(word, "");
      assert word + "" == word && ("/" + word)[1..] == word;
      assert a + ("/" + word) == "/" + word;
    } else {
      SplitAppend(a[1..], word);
      var s := a + ("/" + word);
      assert s[1..] == a[1..] + ("/" + word) && s[0] == a[0];
      assert (SplitSlash(a[1..]) + [word])[1..] == SplitSlash(a[1..])[1..] + [word];
    }
  }

  lemma {:induction false} ReduceAppend(parts: seq<string>, last: string, stack: seq<string>)
    ensures Reduce(parts + [last], stack) == Reduce([last], Reduce(parts, stack))
  {
    var all := parts + [last];
    if parts == [] {
      assert all == [last];
    } else {
      var p, rest := parts[0], parts[1..];
      assert all[0] == p && all[1..] == rest + [last];
      ReduceAppend(rest, last,
                   if p == "" || p == "." then stack
                   else if p == ".." then if stack == [] then [] else stack[..|stack| - 1]
                   else stack + [p]);
    }
  }

  /** Cleaning a longer path: a name goes one level down, ".." one level up but never above the root, and "." and a
      slash too many stay where they are. */
  lemma {:induction false} CleanFollows(path: string, word: string)
    requires '/' !in word
    ensures var above, segs := CleanedSegments(path), CleanedSegments(path + ("/" + word));
      && (word == "" || word == "." ==> segs == above)
      && (word == ".." ==> segs == if above == [] then [] else above[..|above| - 1])
      && (CleanSegment(word) ==> segs == above + [word])
  {
    SplitAppend(path, word);
    ReduceAppend(SplitSlash(path), word, []);
    assert [word][1..] == [];
  }

  /** Where cleaning starts; a text that is not rooted is read as if a slash came before it. */
  lemma {:induction false} CleanStarts(value: string)
    ensures CleanedSegments("") == CleanedSegments("/") == []
    ensures Blank(value) ==> Segments(value) == [] && Normalize(value) == ""
    ensures !Blank(value) ==>
              Segments(value) == CleanedSegments((if TrimSpace(value)[0] == '/' then "" else "/") + TrimSpace(value))
    ensures !Blank(value) ==> Normalize(value) == "/" + Join(Segments(value), "/")
  {
    assert SplitSlash("") == [""] && [""][1..] == [];
    assert ("/")[1..] == "" && SplitSlash("/") == ["", ""] && ["", ""][1..] == [""];
    if !Blank(value) {
      var t := TrimSpace(value);
      assert HasPrefix(t, "/") <==> t[0] == '/' by {
        assert t[..1] == [t[0]];
      }
      assert "" + t == t;
      NormalizeRooted(value);
      FlatJoins(Segments(value));
    }
  }

  lemma {:induction false} FlatJoins(segs: seq<string>)
    ensures PathOf(segs) == "/" + Join(segs, "/")
  {
    if |segs| == 1 {
      assert segs[1..] == [] && Flat([]) == "";
    } else if segs != [] {
      FlatJoins(segs[1..]);
      assert "/" + segs[0] + ("/" + Join(segs[1..], "/")) == "/" + (segs[0] + "/" + Join(segs[1..], "/"));
    }
  }

  // ----- a measure for walking up: number of slashes -----

  function Slashes(s: string): nat {
    if s == "" then 0 else (if s[0] == '/' then 1 else 0) + Slashes(s[1..])
  }

  lemma {:induction false} SplitCount(s: string)
    ensures |SplitSlash(s)| == Slashes(s) + 1
  {
    if s != "" { SplitCount(s[1..]); }
  }

  lemma {:induction false} SlashesPrefix(t: string, s: string)
    requires t <= s
    ensures Slashes(t) <= Slashes(s)
  {
    if t != "" { SlashesPrefix(t[1..], s[1..]); }
  }

  /** Going to the parent strictly shortens the list of segments, even when trimming rewrites the path on the way. */
  lemma {:induction false} ParentIsShorter(p: string)
    requires Segments(p) != []
    ensures |Segments(Parent(p))| < |Segments(p)|
  {
    var segs := Segments(p);
    NormalizeRooted(p);
    var init, name := segs[..|segs| - 1], segs[|segs| - 1];
    assert segs == init + [name];
    BaseAndParent(init, name, p);
    if init != [] {
      PathStart(init);
      FlatBound(init, Flat(init));
    }
  }

  lemma {:induction false} FlatBound(init: seq<string>, q: string)
    requires CleanSegments(init) && init != [] && q == Flat(init) && q != "" && q[0] == '/'
    ensures |Segments(q)| <= |init|
  {
    TrimRooted(q);
    CleanBounds(TrimSpace(q));
    SlashesPrefix(TrimSpace(q), q);
    SplitFlat(init);
    SplitCount(q);
  }

  // ----- names that keep their spelling wherever they end up in a path -----

  predicate CleanName(s: string) {
    CleanSegment(s) && Trimmed(s)
  }

  // The trigger keeps the solver from taking every name apart.
  predicate CleanNames(segs: seq<string>) {
    forall i {:trigger CleanName(segs[i])} | 0 <= i < |segs| :: CleanName(segs[i])
  }

  lemma {:induction false} CleanNamesPath(segs: seq<string>)
    requires CleanNames(segs)
    ensures CleanSegments(segs) && Trimmed(PathOf(segs))
    ensures Segments(PathOf(segs)) == segs && Normalize(PathOf(segs)) == PathOf(segs)
  {
    forall i | 0 <= i < |segs| ensures CleanSegment(segs[i]) {
      assert CleanName(segs[i]);
    }
    LastOfPath(segs);
    if segs != [] {
      assert CleanName(segs[|segs| - 1]);
    }
    SegmentsOfPath(segs);
  }
}
