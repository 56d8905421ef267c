/** The string operations the program uses: trimming, searching, splitting, ordering. */
module Text {
  import opened Wrappers

  // ----- whitespace (unicode.IsSpace) and strings.TrimSpace -----

  /** The ranges of code points that unicode.IsSpace accepts, numbered. */
  function SpaceRange(k: nat): (char, char) {
    match k
    case 0 => (' ', ' ')
    case 1 => ('\t', '\r')
    case 2 => ('\U{0085}', '\U{0085}')
    case 3 => ('\U{00A0}', '\U{00A0}')
    case 4 => ('\U{1680}', '\U{1680}')
    case 5 => ('\U{2000}', '\U{200A}')
    case 6 => ('\U{2028}', '\U{2029}')
    case 7 => ('\U{202F}', '\U{202F}')
    case 8 => ('\U{205F}', '\U{205F}')
    case _ => ('\U{3000}', '\U{3000}')
  }

  predicate InSpaceRange(c: char, k: nat) {
    SpaceRange(k).0 <= c <= SpaceRange(k).1
  }

  predicate IsSpace(c: char) {
    exists k: nat | k < 10 :: InSpaceRange(c, k)
  }

  /** Visible ASCII characters are not spaces. */
  lemma {:induction false} VisibleNotSpace(c: char)
    requires '!' <= c <= '~'
    ensures !IsSpace(c)
  {
    forall k: nat | k < 10 ensures !InSpaceRange(c, k) {}
  }

  /** The characters that Go counts as white space, one by one. */
  lemma {:induction false} SpacesAre(c: char)
    ensures IsSpace(c) <==>
            || c in ['\t', '\n', '\U{000B}', '\U{000C}', '\r', ' ', '\U{0085}', '\U{00A0}', '\U{1680}']
            || '\U{2000}' <= c <= '\U{200A}'
            || c in ['\U{2028}', '\U{2029}', '\U{202F}', '\U{205F}', '\U{3000}']
  {
    assert IsSpace(c) <==> exists k: nat | k < 10 :: InSpaceRange(c, k);
    assert SpaceRange(1) == ('\t', '\r') && SpaceRange(9) == ('\U{3000}', '\U{3000}');
    assert forall k: nat | k < 10 :: InSpaceRange(c, k) <==> SpaceRange(k).0 <= c <= SpaceRange(k).1;
    assert InSpaceRange(c, 0) || InSpaceRange(c, 1) || InSpaceRange(c, 2) || InSpaceRange(c, 3) || InSpaceRange(c, 4)
           || InSpaceRange(c, 5) || InSpaceRange(c, 6) || InSpaceRange(c, 7) || InSpaceRange(c, 8) || InSpaceRange(c, 9)
           <==> IsSpace(c);
  }

  predicate AllSpace(s: string) {
    forall i | 0 <= i < |s| :: IsSpace(s[i])
  }

  /** Neither end is a space. */
  predicate Trimmed(s: string) {
    s == "" || (!IsSpace(s[0]) && !IsSpace(s[|s| - 1]))
  }

  function TrimLeft(s: string): string {
    if s != "" && IsSpace(s[0]) then TrimLeft(s[1..]) else s
  }

  function TrimRight(s: string): string {
    if s != "" && IsSpace(s[|s| - 1]) then TrimRight(s[..|s| - 1]) else s
  }

  lemma {:induction false} TrimLeftFacts(s: string)
    ensures var r := TrimLeft(s); (r == "" || !IsSpace(r[0])) && (s == "" || !IsSpace(s[0]) ==> r == s)
    ensures |TrimLeft(s)| <= |s| && TrimLeft(s) == s[|s| - |TrimLeft(s)|..]
  {
    if s != "" && IsSpace(s[0]) { TrimLeftFacts(s[1..]); }
  }

  lemma {:induction false} TrimRightFacts(s: string)
    ensures var r := TrimRight(s); (r == "" || !IsSpace(r[|r| - 1])) && (s == "" || !IsSpace(s[|s| - 1]) ==> r == s)
    ensures TrimRight(s) <= s
  {
    if s != "" && IsSpace(s[|s| - 1]) { TrimRightFacts(s[..|s| - 1]); }
  }

  function TrimSpace(s: string): (r: string)
    ensures Trimmed(r)
    ensures Trimmed(s) ==> r == s
  {
    TrimLeftFacts(s);
    TrimRightFacts(TrimLeft(s));
    TrimRight(TrimLeft(s))
  }

  lemma {:induction false} TrimLeftCuts(s: string)
    ensures |TrimLeft(s)| <= |s| && AllSpace(s[..|s| - |TrimLeft(s)|])
  {
    TrimLeftFacts(s);
    if s != "" && IsSpace(s[0]) {
      TrimLeftCuts(s[1..]);
      var n := |s| - |TrimLeft(s)|;
      assert s[..n] == [s[0]] + s[1..][..n - 1];
    }
  }

  lemma {:induction false} TrimRightCuts(s: string)
    ensures TrimRight(s) <= s && AllSpace(s[|TrimRight(s)|..])
  {
    TrimRightFacts(s);
    if s != "" && IsSpace(s[|s| - 1]) {
      var init := s[..|s| - 1];
      TrimRightCuts(init);
      TrimRightFacts(init);
      assert s[|TrimRight(s)|..] == init[|TrimRight(s)|..] + [s[|s| - 1]];
    }
  }

  /** Trimming cuts off white space at both ends and nothing else. */
  lemma {:induction false} TrimSpaceCuts(s: string) returns (i: nat, j: nat)
    ensures i <= j <= |s| && TrimSpace(s) == s[i..j] && AllSpace(s[..i]) && AllSpace(s[j..])
  {
    var left := TrimLeft(s);
    TrimLeftFacts(s);
    TrimLeftCuts(s);
    TrimRightCuts(left);
    i := |s| - |left|;
    j := i + |TrimRight(left)|;
    assert left == s[i..] && s[j..] == left[|TrimRight(left)|..];
    assert s[i..j] == left[..|TrimRight(left)|];
  }

  /** What is left when all white space at the ends is cut off is the trimmed text. */
  lemma {:induction false} TrimIsUnique(s: string, i: nat, j: nat)
    requires i < j <= |s| && AllSpace(s[..i]) && AllSpace(s[j..]) && !IsSpace(s[i]) && !IsSpace(s[j - 1])
    ensures TrimSpace(s) == s[i..j]
  {
    var k, l := TrimSpaceCuts(s);
    SpacesAround(s, i, j);
    SpacesAround(s, k, l);
    assert k <= i < l && k <= j - 1 < l;
    assert s[k..l][0] == s[k] && s[k..l][l - k - 1] == s[l - 1];
  }

  lemma {:induction false} SpacesAround(s: string, i: nat, j: nat)
    requires i <= j <= |s| && AllSpace(s[..i]) && AllSpace(s[j..])
    ensures forall n | 0 <= n < |s| && (n < i || j <= n) :: IsSpace(s[n])
  {
    assert forall n | 0 <= n < i :: s[n] == s[..i][n];
    assert forall n | j <= n < |s| :: s[n] == s[j..][n - j];
  }

  /** stringOrDefault */
  function OrDefault(value: string, fallback: string): string {
    if TrimSpace(value) != "" then TrimSpace(value) else fallback
  }

  /** The first argument that is not blank, trimmed; "" when all are blank. */
  function FirstNonEmpty(values: seq<string>): (r: string)
    ensures Trimmed(r)
  {
    if values == [] then ""
    else if TrimSpace(values[0]) != "" then TrimSpace(values[0])
    else FirstNonEmpty(values[1..])
  }

  predicate Blank(s: string) {
    TrimSpace(s) == ""
  }

  /** The first value that is not blank, trimmed. */
  ghost predicate IsFirst(values: seq<string>, v: string) {
    exists k: nat ::
      && k < |values| && !Blank(values[k]) && v == TrimSpace(values[k])
      && forall j | 0 <= j < k :: Blank(values[j])
  }

  lemma {:induction false} FirstNonEmptyIsFirst(values: seq<string>, v: string)
    requires v != ""
    ensures FirstNonEmpty(values) == v <==> IsFirst(values, v)
  {
    if values != [] {
      FirstNonEmptyIsFirst(values[1..], v);
      if Blank(values[0]) {
        if k: nat :| k < |values[1..]| && !Blank(values[1..][k]) && v == TrimSpace(values[1..][k])
                     && forall j | 0 <= j < k :: Blank(values[1..][j]) {
          assert forall j | 0 <= j < k + 1 :: j == 0 || values[j] == values[1..][j - 1];
          assert k + 1 < |values| && !Blank(values[k + 1]) && v == TrimSpace(values[k + 1]);
        }
        if k: nat :| k < |values| && !Blank(values[k]) && v == TrimSpace(values[k])
                     && forall j | 0 <= j < k :: Blank(values[j]) {
          assert k > 0 && values[1..][k - 1] == values[k];
          assert forall j | 0 <= j < k - 1 :: values[1..][j] == values[j + 1];
        }
      } else {
        assert v == TrimSpace(values[0]) ==> IsFirst(values, v);
      }
    }
  }

  lemma {:induction false} FirstNonEmptyBlank(values: seq<string>)
    ensures FirstNonEmpty(values) == "" <==> forall k | 0 <= k < |values| :: Blank(values[k])
  {
    if values != [] {
      FirstNonEmptyBlank(values[1..]);
      assert Blank(values[0]) ==> forall k | 0 <= k < |values| :: k == 0 || values[k] == values[1..][k - 1];
      assert forall k | 0 <= k < |values[1..]| :: values[1..][k] == values[k + 1];
    }
  }

  // ----- searching and splitting -----

  predicate OccursAt(s: string, sep: string, i: int) {
    0 <= i <= |s| && sep <= s[i..]
  }

  lemma {:induction false} OccursShift(s: string, sep: string)
    requires s != ""
    ensures forall j :: OccursAt(s, sep, j) && j != 0 ==> OccursAt(s[1..], sep, j - 1)
    ensures forall j :: OccursAt(s[1..], sep, j) ==> OccursAt(s, sep, j + 1)
  {
    forall j | OccursAt(s, sep, j) && j != 0
      ensures OccursAt(s[1..], sep, j - 1)
    {
      assert s[1..][j - 1..] == s[j..];
    }
    forall j | OccursAt(s[1..], sep, j)
      ensures OccursAt(s, sep, j + 1)
    {
      assert s[1..][j..] == s[j + 1..];
    }
  }

  predicate HasPrefix(s: string, prefix: string) {
    prefix <= s
  }

  /** strings.Index: the leftmost occurrence. */
  function Index(s: string, sep: string): Option<nat> {
    if s == "" then None
    else if sep <= s then Some(0)
    else
      var rest := Index(s[1..], sep);
      if rest.None? then None else Some(rest.value + 1)
  }

  predicate Contains(s: string, sep: string) {
    Index(s, sep).Some?
  }

  lemma {:induction false} IndexFacts(s: string, sep: string)
    requires sep != ""
    ensures var r := Index(s, sep); r.Some? ==> OccursAt(s, sep, r.value) && r.value + |sep| <= |s|
    ensures var r := Index(s, sep); forall j :: OccursAt(s, sep, j) ==> r.Some? && r.value <= j
  {
    if s != "" {
      assert s[0..] == s;
      if !(sep <= s) {
        assert !OccursAt(s, sep, 0);
        OccursShift(s, sep);
        IndexFacts(s[1..], sep);
      }
    }
  }

  /** strings.Split: cut at every non-overlapping occurrence, from the left. */
  function Split(s: string, sep: string): seq<string>
    requires sep != ""
    decreases |s|
  {
    var at := Index(s, sep);
    if at.None? then [s]
    else
      IndexFacts(s, sep);
      [s[..at.value]] + Split(s[at.value + |sep|..], sep)
  }

  /** The parts with the separator put back between them. */
  function Join(parts: seq<string>, sep: string): string {
    if parts == [] then "" else if |parts| == 1 then parts[0] else parts[0] + sep + Join(parts[1..], sep)
  }

  /** Joining the parts gives back the text, and no part holds the separator. */
  lemma {:induction false} SplitJoins(s: string, sep: string)
    requires sep != ""
    ensures Split(s, sep) != [] && Join(Split(s, sep), sep) == s
    ensures forall part | part in Split(s, sep) :: !Contains(part, sep)
    decreases |s|
  {
    IndexFacts(s, sep);
    var at := Index(s, sep);
    if at.Some? {
      var head, tail := s[..at.value], s[at.value + |sep|..];
      SplitJoins(tail, sep);
      assert s == head + sep + tail by {
        assert s[at.value..][..|sep|] == sep;
      }
      NoEarlier(s, sep, at.value);
      assert Split(s, sep)[1..] == Split(tail, sep);
    }
  }

  lemma {:induction false} NoEarlier(s: string, sep: string, n: nat)
    requires sep != "" && n <= |s| && forall j :: OccursAt(s, sep, j) ==> n <= j
    ensures !Contains(s[..n], sep)
  {
    IndexFacts(s[..n], sep);
    if Contains(s[..n], sep) {
      var i := Index(s[..n], sep).value;
      assert s[i..][..|sep|] == s[..n][i..][..|sep|];
      assert OccursAt(s, sep, i);
    }
  }

  /** The separator's first character does not come back inside it, so two occurrences cannot overlap. */
  predicate NoOverlap(sep: string) {
    sep != "" && forall k | 0 < k < |sep| :: sep[k] != sep[0]
  }

  /** An occurrence in left+sep+right that starts before the middle one lies inside left. */
  lemma {:induction false} EarlierOccurrence(left: string, sep: string, right: string, s: string, i: int)
    requires NoOverlap(sep) && s == left + sep + right && OccursAt(s, sep, i) && i < |left|
    ensures OccursAt(left, sep, i) && i + |sep| <= |left|
  {
    var k := if i + |sep| > |left| then |left| - i else 0;
    assert s[i..][k] == sep[k] == s[i + k];
    assert s[|left|] == sep[0];
    assert s[i..][..|sep|] == left[i..][..|sep|];
  }

  lemma {:induction false} SplitOnce(s: string, sep: string)
    requires sep != ""
    ensures |Split(s, sep)| >= if Contains(s, sep) then 2 else 1
    ensures !Contains(s, sep) ==> Split(s, sep) == [s]
  {
  }

  /** The first occurrence is the middle one when left is free of the separator, else it lies inside left. */
  lemma {:induction false} FirstCut(left: string, sep: string, right: string, s: string) returns (i: nat)
    requires NoOverlap(sep) && s == left + sep + right
    ensures Index(s, sep) == Some(i)
    ensures if Contains(left, sep) then i + |sep| <= |left| else i == |left|
  {
    assert s[|left|..] == sep + right;
    assert OccursAt(s, sep, |left|);
    IndexFacts(s, sep);
    IndexFacts(left, sep);
    i := Index(s, sep).value;
    if i < |left| {
      EarlierOccurrence(left, sep, right, s, i);
    } else if Contains(left, sep) {
      var j := Index(left, sep).value;
      assert s[j..] == left[j..] + sep + right;
      assert OccursAt(s, sep, j);
    }
  }

  lemma {:induction false} StillToCome(left: string, sep: string, right: string, s: string, i: nat)
    requires sep != "" && s == left + sep + right && i <= |left|
    ensures Contains(s[i..], sep)
  {
    var k := |left| - i;
    assert s[i..][k..] == s[|left|..] == sep + right;
    assert OccursAt(s[i..], sep, k);
    IndexFacts(s[i..], sep);
  }

  lemma {:induction false} SplitTwice(left: string, sep: string, right: string, s: string)
    requires NoOverlap(sep) && s == left + sep + right && Contains(left, sep)
    ensures |Split(s, sep)| >= 3
  {
    var i := FirstCut(left, sep, right, s);
    StillToCome(left, sep, right, s, i + |sep|);
    SplitOnce(s[i + |sep|..], sep);
  }

  /** Splitting gives back exactly the two halves, if and only if neither holds the separator. */
  lemma {:induction false} SplitPair(left: string, sep: string, right: string, s: string)
    requires NoOverlap(sep) && s == left + sep + right
    ensures |Split(s, sep)| == 2 <==> !Contains(left, sep) && !Contains(right, sep)
    ensures |Split(s, sep)| == 2 ==> Split(s, sep) == [left, right]
  {
    if Contains(left, sep) {
      SplitTwice(left, sep, right, s);
    } else {
      var i := FirstCut(left, sep, right, s);
      assert s[..i] == left && s[i + |sep|..] == right;
      SplitOnce(right, sep);
    }
  }

  // ----- lower case, for the code points that can reach an ASCII letter (strings.ToLower) -----

  function LowerChar(c: char): char {
    if 'A' <= c <= 'Z' then c + ('a' - 'A')
    else if c == '\U{0130}' then 'i'
    else if c == '\U{212A}' then 'k'
    else c
  }

  function Lower(s: string): string {
    seq(|s|, i requires 0 <= i < |s| => LowerChar(s[i]))
  }

  /** The two characters are one lower-case letter, or the first is its capital. Two other signs go with i and k. */
  predicate CaseOf(c: char, l: char) {
    || c == l || (c == '\U{0130}' && l == 'i') || (c == '\U{212A}' && l == 'k')
    || ('a' <= l <= 'z' && 'A' <= c <= 'Z' && c as int - 'A' as int == l as int - 'a' as int)
  }

  /** The text reads as a word in lower-case letters when case is ignored. */
  predicate ReadsAs(s: string, word: string) {
    |s| == |word| && forall i | 0 <= i < |s| :: CaseOf(s[i], word[i])
  }

  predicate LowerWord(word: string) {
    forall i | 0 <= i < |word| :: 'a' <= word[i] <= 'z'
  }

  lemma {:induction false} LowerReads(s: string, word: string)
    requires LowerWord(word)
    ensures Lower(s) == word <==> ReadsAs(s, word)
  {
    if Lower(s) == word {
      assert forall i | 0 <= i < |s| :: Lower(s)[i] == word[i];
    }
    if ReadsAs(s, word) {
      assert forall i | 0 <= i < |s| :: Lower(s)[i] == word[i];
    }
  }

  function ReplaceChar(s: string, from: char, to: char): string {
    seq(|s|, i requires 0 <= i < |s| => if s[i] == from then to else s[i])
  }

  /** strings.Trim(s, "/"). */
  function TrimSlashes(s: string): (r: string)
    ensures '/' !in s ==> r == s
    decreases |s|
  {
    if s != "" && s[0] == '/' then TrimSlashes(s[1..])
    else if s != "" && s[|s| - 1] == '/' then TrimSlashes(s[..|s| - 1])
    else s
  }

  predicate AllSlashes(s: string) {
    forall i | 0 <= i < |s| :: s[i] == '/'
  }

  /** Slashes at the ends are cut off, and nothing else. */
  lemma {:induction false} TrimSlashesCuts(s: string) returns (i: nat, j: nat)
    ensures i <= j <= |s| && TrimSlashes(s) == s[i..j] && AllSlashes(s[..i]) && AllSlashes(s[j..])
    decreases |s|
  {
    i, j := 0, |s|;
    if s != "" && s[0] == '/' {
      var k, l := TrimSlashesCuts(s[1..]);
      i, j := k + 1, l + 1;
      assert s[1..][k..l] == s[i..j] && s[1..][l..] == s[j..];
      assert s[..i] == [s[0]] + s[1..][..k];
    } else if s != "" && s[|s| - 1] == '/' {
      var init := s[..|s| - 1];
      i, j := TrimSlashesCuts(init);
      assert init[i..j] == s[i..j] && init[..i] == s[..i];
      assert s[j..] == init[j..] + [s[|s| - 1]];
    }
  }

  lemma {:induction false} NoSlashLeft(s: string)
    ensures var r := TrimSlashes(s); r == "" || (r[0] != '/' && r[|r| - 1] != '/')
    decreases |s|
  {
    if s != "" && s[0] == '/' {
      NoSlashLeft(s[1..]);
    } else if s != "" && s[|s| - 1] == '/' {
      NoSlashLeft(s[..|s| - 1]);
    }
  }

  // ----- the order of sort.Strings: bytewise on UTF-8, hence by code point -----

  predicate Less(a: string, b: string) {
    b != "" && (a == "" || a[0] < b[0] || (a[0] == b[0] && Less(a[1..], b[1..])))
  }

  lemma {:induction false} LessTransitive(a: string, b: string, c: string)
    requires Less(a, b) && Less(b, c)
    ensures Less(a, c)
  {
    if a != "" && a[0] == b[0] && b[0] == c[0] {
      LessTransitive(a[1..], b[1..], c[1..]);
    }
  }

  lemma {:induction false} LessIrreflexive(a: string)
    ensures !Less(a, a)
  {
    if a != "" {
      LessIrreflexive(a[1..]);
    }
  }

  lemma {:induction false} LessTotal(a: string, b: string)
    ensures a == b || Less(a, b) || Less(b, a)
  {
    if a != "" && b != "" && a[0] == b[0] {
      LessTotal(a[1..], b[1..]);
      assert a == [a[0]] + a[1..] && b == [b[0]] + b[1..];
    }
  }

  /** The order of a dictionary: at the first place where two texts differ the smaller character comes first, and a text
      comes before its continuations. */
  predicate ComesFirst(a: string, b: string) {
    a < b || exists k :: 0 <= k < |a| && k < |b| && a[..k] == b[..k] && a[k] < b[k]
  }

  lemma {:induction false} SamePrefix(c: char, s: string, t: string)
    ensures [c] + s < [c] + t <==> s < t
  {
    var a, b := [c] + s, [c] + t;
    assert s == a[1..] && t == b[1..];
    if a < b {
      assert forall i | 0 <= i < |s| :: s[i] == a[i + 1] == b[i + 1] == t[i];
    }
    if s < t {
      assert forall i | 0 < i < |a| :: a[i] == s[i - 1] == t[i - 1] == b[i];
    }
  }

  lemma {:induction false} SameFirstCharacter(c: char, s: string, t: string)
    ensures ComesFirst([c] + s, [c] + t) <==> ComesFirst(s, t)
  {
    var a, b := [c] + s, [c] + t;
    SamePrefix(c, s, t);
    if k :| 0 <= k < |s| && k < |t| && s[..k] == t[..k] && s[k] < t[k] {
      assert a[..k + 1] == [c] + s[..k] && b[..k + 1] == [c] + t[..k] && a[k + 1] < b[k + 1];
    }
    if k :| 0 <= k < |a| && k < |b| && a[..k] == b[..k] && a[k] < b[k] {
      assert k > 0 && s[..k - 1] == a[..k][1..] && t[..k - 1] == b[..k][1..] && s[k - 1] < t[k - 1];
    }
  }

  lemma {:induction false} OtherFirstCharacter(a: string, b: string)
    requires a != "" && b != "" && a[0] != b[0]
    ensures ComesFirst(a, b) <==> a[0] < b[0]
  {
    assert a[..0] == b[..0];
    assert forall k | 0 < k < |a| && k < |b| :: a[..k][0] != b[..k][0];
  }

  lemma {:induction false} LessIsDictionaryOrder(a: string, b: string)
    ensures Less(a, b) <==> ComesFirst(a, b)
  {
    if a != "" && b != "" {
      if a[0] == b[0] {
        LessIsDictionaryOrder(a[1..], b[1..]);
        SameFirstCharacter(a[0], a[1..], b[1..]);
        assert a == [a[0]] + a[1..] && b == [a[0]] + b[1..];
      } else {
        OtherFirstCharacter(a, b);
      }
    }
  }

  predicate Ascending(keys: seq<string>) {
    forall i, j | 0 <= i < j < |keys| :: Less(keys[i], keys[j])
  }
}
