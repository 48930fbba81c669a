/** Regular expressions as `re.fullmatch` reads them: the language of a
    pattern, for the few constructs the validators use (character classes,
    concatenation, `*`, `+` and bounded repetition `{m,n}`). `re.fullmatch`
    succeeds on a string exactly when the string is in that language. */
module Regex {

  /** A bracketed character class as a list of ranges; a single character
      `c` is the range `(c, c)`. */
  type CharClass = seq<(char, char)>

  predicate InClass(cs: CharClass, c: char) {
    exists i :: 0 <= i < |cs| && cs[i].0 <= c <= cs[i].1
  }

  predicate AllIn(cs: CharClass, s: string) {
    forall i :: 0 <= i < |s| ==> InClass(cs, s[i])
  }

  datatype Re =
    | Class(cs: CharClass)
    | Cat(a: Re, b: Re)
    | Star(r: Re)
    /** `r{lo,hi}`. */
    | Rep(r: Re, lo: nat, hi: nat)

  function Lit(c: char): Re {
    Class([(c, c)])
  }

  /** `r+`. */
  function Plus(r: Re): Re {
    Cat(r, Star(r))
  }

  /** `r{n,}`. */
  function AtLeast(r: Re, n: nat): Re {
    Cat(Rep(r, n, n), Star(r))
  }

  function Size(r: Re): nat {
    match r
    case Class(_) => 1
    case Cat(a, b) => Size(a) + Size(b) + 1
    case Star(a) => Size(a) + 1
    case Rep(a, _, hi) => Size(a) + hi + 1
  }

  /** `s` is in the language of `r`. An iteration of `*` or of a repetition
      consumes at least one character, which changes no language. */
  ghost predicate Matches(r: Re, s: string)
    decreases Size(r), |s|
  {
    match r
    case Class(cs) => |s| == 1 && InClass(cs, s[0])
    case Cat(a, b) => exists k :: 0 <= k <= |s| && Matches(a, s[..k]) && Matches(b, s[k..])
    case Star(a) =>
      s == [] || exists k :: 1 <= k <= |s| && Matches(a, s[..k]) && Matches(Star(a), s[k..])
    case Rep(a, lo, hi) =>
      (lo == 0 && s == [])
      || (hi > 0 && exists k :: (1 <= k <= |s| && Matches(a, s[..k])
                                 && Matches(Rep(a, if lo > 0 then lo - 1 else 0, hi - 1), s[k..])))
  }

  /** `[cs]{lo,hi}` takes between `lo` and `hi` characters of the class. */
  lemma {:induction false} RepClass(cs: CharClass, lo: nat, hi: nat, s: string)
    ensures Matches(Rep(Class(cs), lo, hi), s) <==> lo <= |s| <= hi && AllIn(cs, s)
    decreases hi
  {
    var lo' := if lo > 0 then lo - 1 else 0;
    if Matches(Rep(Class(cs), lo, hi), s) && s != [] {
      var k :| 1 <= k <= |s| && Matches(Class(cs), s[..k])
        && Matches(Rep(Class(cs), lo', hi - 1), s[k..]);
      RepClass(cs, lo', hi - 1, s[k..]);
      assert k == 1;
      assert forall i :: 1 <= i < |s| ==> s[i] == s[k..][i - 1];
    }
    if lo <= |s| <= hi && AllIn(cs, s) && s != [] {
      RepClass(cs, lo', hi - 1, s[1..]);
      assert s[..1] == [s[0]];
      assert AllIn(cs, s[1..]) by {
        assert forall i :: 0 <= i < |s| - 1 ==> s[1..][i] == s[i + 1];
      }
    }
  }

  /** `[cs]*` takes any number of characters of the class. */
  lemma {:induction false} StarClass(cs: CharClass, s: string)
    ensures Matches(Star(Class(cs)), s) <==> AllIn(cs, s)
    decreases |s|
  {
    if s != [] {
      if Matches(Star(Class(cs)), s) {
        var k :| 1 <= k <= |s| && Matches(Class(cs), s[..k]) && Matches(Star(Class(cs)), s[k..]);
        assert k == 1;
        StarClass(cs, s[1..]);
        assert forall i :: 1 <= i < |s| ==> s[i] == s[1..][i - 1];
      }
      if AllIn(cs, s) {
        StarClass(cs, s[1..]);
        assert s[..1] == [s[0]];
        assert forall i :: 0 <= i < |s| - 1 ==> s[1..][i] == s[i + 1];
      }
    }
  }

  /** `[cs]+` takes one or more characters of the class. */
  lemma PlusClass(cs: CharClass, s: string)
    ensures Matches(Plus(Class(cs)), s) <==> s != [] && AllIn(cs, s)
  {
    if Matches(Plus(Class(cs)), s) {
      var k :| 0 <= k <= |s| && Matches(Class(cs), s[..k]) && Matches(Star(Class(cs)), s[k..]);
      StarClass(cs, s[k..]);
      assert k == 1;
      assert forall i :: 1 <= i < |s| ==> s[i] == s[1..][i - 1];
    }
    if s != [] && AllIn(cs, s) {
      StarClass(cs, s[1..]);
      assert s[..1] == [s[0]];
      assert forall i :: 0 <= i < |s| - 1 ==> s[1..][i] == s[i + 1];
    }
  }

  /** A literal takes exactly that character. */
  lemma LitMatches(c: char, s: string)
    ensures Matches(Lit(c), s) <==> s == [c]
  {
    if s == [c] {
      assert InClass([(c, c)], s[0]) by {
        assert [(c, c)][0].0 <= s[0] <= [(c, c)][0].1;
      }
    }
  }

  /** `[cs]{1}[ds]{lo,hi}`: a first character of `cs`, then between `lo` and
      `hi` characters of `ds`. */
  lemma HeadThenRep(cs: CharClass, ds: CharClass, lo: nat, hi: nat, s: string)
    ensures Matches(Cat(Rep(Class(cs), 1, 1), Rep(Class(ds), lo, hi)), s) <==>
      (s != [] && InClass(cs, s[0]) && lo <= |s| - 1 <= hi && AllIn(ds, s[1..]))
  {
    var r := Cat(Rep(Class(cs), 1, 1), Rep(Class(ds), lo, hi));
    if Matches(r, s) {
      var k :| 0 <= k <= |s| && Matches(Rep(Class(cs), 1, 1), s[..k]) && Matches(Rep(Class(ds), lo, hi), s[k..]);
      RepClass(cs, 1, 1, s[..k]);
      RepClass(ds, lo, hi, s[k..]);
      assert k == 1 && s[..k][0] == s[0];
    }
    if s != [] && InClass(cs, s[0]) && lo <= |s| - 1 <= hi && AllIn(ds, s[1..]) {
      RepClass(cs, 1, 1, s[..1]);
      RepClass(ds, lo, hi, s[1..]);
      assert Matches(Rep(Class(cs), 1, 1), s[..1]) && Matches(Rep(Class(ds), lo, hi), s[1..]);
    }
  }

  // The shape of the e-mail pattern: `([W]+[S])*[W]+@[D]+(\.[T]{2,})+`.

  /** `([W]+[S])*[W]+`: characters of `W` and `S`, beginning and ending with
      one of `W`, where each character outside `W` is flanked by characters
      of `W`. */
  predicate LocalOk(w: CharClass, sep: CharClass, s: string) {
    && s != []
    && InClass(w, s[0]) && InClass(w, s[|s| - 1])
    && forall i :: 0 <= i < |s| ==> Flanked(w, sep, s, i)
  }

  /** Character `i` of `s` is one of `W`, or a separator between two of them. */
  predicate Flanked(w: CharClass, sep: CharClass, s: string, i: nat)
    requires i < |s|
  {
    InClass(w, s[i])
    || (InClass(sep, s[i]) && 0 < i < |s| - 1 && InClass(w, s[i - 1]) && InClass(w, s[i + 1]))
  }

  function Block(w: CharClass, sep: CharClass): Re {
    Cat(Plus(Class(w)), Class(sep))
  }

  function Local(w: CharClass, sep: CharClass): Re {
    Cat(Star(Block(w, sep)), Plus(Class(w)))
  }

  /** One block followed by a valid local part is a valid local part. */
  lemma BlockThenLocal(w: CharClass, sep: CharClass, blk: string, rest: string)
    requires Matches(Block(w, sep), blk) && LocalOk(w, sep, rest)
    ensures LocalOk(w, sep, blk + rest)
  {
    var k :| 0 <= k <= |blk| && Matches(Plus(Class(w)), blk[..k]) && Matches(Class(sep), blk[k..]);
    PlusClass(w, blk[..k]);
    assert k == |blk| - 1;
    var s := blk + rest;
    forall i | 0 <= i < |s|
      ensures Flanked(w, sep, s, i)
    {
      if i < k {
        assert s[i] == blk[..k][i];
      } else if i == k {
        assert s[i] == blk[k..][0];
        assert s[i - 1] == blk[..k][k - 1];
        assert s[i + 1] == rest[0];
      } else {
        assert s[i] == rest[i - |blk|];
        assert Flanked(w, sep, rest, i - |blk|);
        if !InClass(w, s[i]) {
          assert s[i - 1] == rest[i - |blk| - 1] && s[i + 1] == rest[i - |blk| + 1];
        }
      }
    }
    assert s[0] == blk[..k][0];
    assert s[|s| - 1] == rest[|rest| - 1];
  }

  lemma {:induction false} StarBlocksThenLocal(w: CharClass, sep: CharClass, a: string, b: string)
    requires Matches(Star(Block(w, sep)), a) && LocalOk(w, sep, b)
    ensures LocalOk(w, sep, a + b)
    decreases |a|
  {
    if a != [] {
      var k :| 1 <= k <= |a| && Matches(Block(w, sep), a[..k]) && Matches(Star(Block(w, sep)), a[k..]);
      StarBlocksThenLocal(w, sep, a[k..], b);
      BlockThenLocal(w, sep, a[..k], a[k..] + b);
      assert a[..k] + (a[k..] + b) == a + b;
    } else {
      assert a + b == b;
    }
  }

  /** Concatenation accepts the concatenation of two accepted strings. */
  lemma CatOf(a: Re, b: Re, x: string, y: string, s: string)
    requires Matches(a, x) && Matches(b, y) && s == x + y
    ensures Matches(Cat(a, b), s)
  {
    assert s[..|x|] == x && s[|x|..] == y;
  }

  /** A nonempty accepted string in front of a starred one. */
  lemma StarCons(r: Re, x: string, y: string)
    requires x != [] && Matches(r, x) && Matches(Star(r), y)
    ensures Matches(Star(r), x + y)
  {
    assert (x + y)[..|x|] == x && (x + y)[|x|..] == y;
  }

  /** What follows the first separator is again a valid local part. */
  lemma AfterSeparator(w: CharClass, sep: CharClass, s: string, i: nat)
    requires LocalOk(w, sep, s) && 0 < i < |s| - 1 && InClass(w, s[i + 1])
    ensures LocalOk(w, sep, s[i + 1..])
  {
    var rest := s[i + 1..];
    assert rest[0] == s[i + 1];
    assert rest[|rest| - 1] == s[|s| - 1];
    forall m | 0 <= m < |rest|
      ensures Flanked(w, sep, rest, m)
    {
      assert Flanked(w, sep, s, i + 1 + m);
      assert rest[m] == s[i + 1 + m];
      if !InClass(w, rest[m]) {
        assert m > 0;
        assert rest[m - 1] == s[i + m] && rest[m + 1] == s[i + 2 + m];
      }
    }
  }

  /** The characters up to and including the first separator form a block. */
  lemma FirstBlock(w: CharClass, sep: CharClass, s: string, i: nat)
    requires 0 < i < |s| && AllIn(w, s[..i]) && InClass(sep, s[i])
    ensures Matches(Block(w, sep), s[..i + 1])
  {
    PlusClass(w, s[..i]);
    LitClass(sep, s[i]);
    CatOf(Plus(Class(w)), Class(sep), s[..i], [s[i]], s[..i + 1]);
  }

  lemma LitClass(cs: CharClass, c: char)
    requires InClass(cs, c)
    ensures Matches(Class(cs), [c])
  {
  }

  /** Splits a string that a concatenation accepts. */
  lemma CatSplit(a: Re, b: Re, s: string) returns (k: nat)
    requires Matches(Cat(a, b), s)
    ensures k <= |s| && Matches(a, s[..k]) && Matches(b, s[k..])
  {
    k :| 0 <= k <= |s| && Matches(a, s[..k]) && Matches(b, s[k..]);
  }

  lemma {:induction false} LocalOkMatches(w: CharClass, sep: CharClass, s: string)
    requires LocalOk(w, sep, s)
    ensures Matches(Local(w, sep), s)
    decreases |s|
  {
    if AllIn(w, s) {
      PlusClass(w, s);
      CatOf(Star(Block(w, sep)), Plus(Class(w)), [], s, s);
    } else {
      var j :| 0 <= j < |s| && !InClass(w, s[j]);
      var i := FirstOutside(w, sep, s, j);
      AfterSeparator(w, sep, s, i);
      LocalOkMatches(w, sep, s[i + 1..]);
      BlockThenMatch(w, sep, s, i);
    }
  }

  /** A block in front of a string the local pattern accepts. */
  lemma BlockThenMatch(w: CharClass, sep: CharClass, s: string, i: nat)
    requires 0 < i < |s| && AllIn(w, s[..i]) && InClass(sep, s[i])
    requires Matches(Local(w, sep), s[i + 1..])
    ensures Matches(Local(w, sep), s)
  {
    assert Local(w, sep) == Cat(Star(Block(w, sep)), Plus(Class(w)));
    var rest := s[i + 1..];
    var kk := CatSplit(Star(Block(w, sep)), Plus(Class(w)), rest);
    var blk, a, b := s[..i + 1], rest[..kk], rest[kk..];
    FirstBlock(w, sep, s, i);
    StarCons(Block(w, sep), blk, a);
    Reassemble(s, i + 1, kk);
    CatOf(Star(Block(w, sep)), Plus(Class(w)), blk + a, b, s);
  }

  lemma Reassemble(s: string, i: nat, k: nat)
    requires i <= |s| && k <= |s| - i
    ensures s[..i] + s[i..][..k] + s[i..][k..] == s
  {
    assert s[i..][..k] + s[i..][k..] == s[i..];
    assert s[..i] + s[i..] == s;
  }

  /** A string the local pattern accepts is a valid local part. */
  lemma LocalMatchesOk(w: CharClass, sep: CharClass, s: string)
    requires Matches(Local(w, sep), s)
    ensures LocalOk(w, sep, s)
  {
    var k :| 0 <= k <= |s| && Matches(Star(Block(w, sep)), s[..k]) && Matches(Plus(Class(w)), s[k..]);
    PlusClass(w, s[k..]);
    assert LocalOk(w, sep, s[k..]) by {
      var b := s[k..];
      forall m | 0 <= m < |b| ensures Flanked(w, sep, b, m) { }
    }
    StarBlocksThenLocal(w, sep, s[..k], s[k..]);
    assert s[..k] + s[k..] == s;
  }

  /** The local pattern accepts exactly the valid local parts. */
  lemma LocalExactly(w: CharClass, sep: CharClass, s: string)
    ensures Matches(Local(w, sep), s) <==> LocalOk(w, sep, s)
  {
    if Matches(Local(w, sep), s) { LocalMatchesOk(w, sep, s); }
    if LocalOk(w, sep, s) { LocalOkMatches(w, sep, s); }
  }

  /** The first character outside `W`, which is a separator between two
      characters of `W`. */
  lemma FirstOutside(w: CharClass, sep: CharClass, s: string, j: nat) returns (i: nat)
    requires LocalOk(w, sep, s) && j < |s| && !InClass(w, s[j])
    ensures 0 < i < |s| - 1 && !InClass(w, s[i]) && InClass(sep, s[i])
    ensures AllIn(w, s[..i]) && InClass(w, s[i + 1])
  {
    i := 0;
    while InClass(w, s[i])
      invariant 0 <= i <= j && AllIn(w, s[..i])
      decreases j - i
    {
      assert s[..i + 1] == s[..i] + [s[i]];
      i := i + 1;
    }
    assert i > 0 && i < |s| - 1 by {
      assert InClass(w, s[0]) && InClass(w, s[|s| - 1]);
    }
    assert Flanked(w, sep, s, i);
  }

  /** `[cs]{n,}` takes at least `n` characters of the class. */
  lemma AtLeastClass(cs: CharClass, n: nat, s: string)
    ensures Matches(AtLeast(Class(cs), n), s) <==> n <= |s| && AllIn(cs, s)
  {
    if Matches(AtLeast(Class(cs), n), s) {
      AtLeastClassOnly(cs, n, s);
    }
    if n <= |s| && AllIn(cs, s) {
      AtLeastClassAll(cs, n, s);
    }
  }

  lemma AtLeastClassOnly(cs: CharClass, n: nat, s: string)
    requires Matches(AtLeast(Class(cs), n), s)
    ensures n <= |s| && AllIn(cs, s)
  {
    var k := CatSplit(Rep(Class(cs), n, n), Star(Class(cs)), s);
    RepClass(cs, n, n, s[..k]);
    StarClass(cs, s[k..]);
    forall i | 0 <= i < |s| ensures InClass(cs, s[i]) {
      if i < k { assert s[i] == s[..k][i]; } else { assert s[i] == s[k..][i - k]; }
    }
  }

  lemma AtLeastClassAll(cs: CharClass, n: nat, s: string)
    requires n <= |s| && AllIn(cs, s)
    ensures Matches(AtLeast(Class(cs), n), s)
  {
    RepClass(cs, n, n, s[..n]);
    StarClass(cs, s[n..]);
    assert AllIn(cs, s[..n]) by {
      forall i | 0 <= i < n ensures InClass(cs, s[..n][i]) { assert s[..n][i] == s[i]; }
    }
    assert AllIn(cs, s[n..]) by {
      forall i | 0 <= i < |s| - n ensures InClass(cs, s[n..][i]) { assert s[n..][i] == s[n + i]; }
    }
    CatOf(Rep(Class(cs), n, n), Star(Class(cs)), s[..n], s[n..], s);
  }

  /** `\.[T]{2,}`: one label of the domain's suffix. */
  function Group(tld: CharClass): Re {
    Cat(Lit('.'), AtLeast(Class(tld), 2))
  }

  lemma GroupExactly(tld: CharClass, s: string)
    ensures Matches(Group(tld), s) <==> 3 <= |s| && s[0] == '.' && AllIn(tld, s[1..])
  {
    if Matches(Group(tld), s) {
      var k := CatSplit(Lit('.'), AtLeast(Class(tld), 2), s);
      LitMatches('.', s[..k]);
      AtLeastClass(tld, 2, s[k..]);
      assert k == 1 && s[0] == s[..k][0];
    }
    if 3 <= |s| && s[0] == '.' && AllIn(tld, s[1..]) {
      LitMatches('.', s[..1]);
      assert s[..1] == ['.'];
      AtLeastClass(tld, 2, s[1..]);
      CatOf(Lit('.'), AtLeast(Class(tld), 2), s[..1], s[1..], s);
    }
  }

  /** Character `i` is a letter of the suffix, or a dot followed by two. */
  predicate InGroups(tld: CharClass, s: string, i: nat)
    requires i < |s|
  {
    InClass(tld, s[i])
    || (s[i] == '.' && i + 2 < |s| && InClass(tld, s[i + 1]) && InClass(tld, s[i + 2]))
  }

  /** `(\.[T]{2,})+` for a class `T` without the dot: a dot first, every dot
      followed by at least two characters of `T`, every other character one
      of `T`. */
  predicate GroupsOk(tld: CharClass, s: string) {
    s != [] && s[0] == '.' && forall i :: 0 <= i < |s| ==> InGroups(tld, s, i)
  }

  lemma GroupThenGroups(tld: CharClass, g: string, r: string)
    requires !InClass(tld, '.')
    requires Matches(Group(tld), g) && (r == [] || GroupsOk(tld, r))
    ensures GroupsOk(tld, g + r)
  {
    GroupExactly(tld, g);
    var s := g + r;
    forall i | 0 <= i < |s| ensures InGroups(tld, s, i) {
      if i == 0 {
        assert s[1] == g[1..][0] && s[2] == g[1..][1];
      } else if i < |g| {
        assert s[i] == g[1..][i - 1];
      } else {
        assert s[i] == r[i - |g|];
        assert InGroups(tld, r, i - |g|);
        if !InClass(tld, s[i]) {
          assert s[i + 1] == r[i - |g| + 1] && s[i + 2] == r[i - |g| + 2];
        }
      }
    }
  }

  lemma {:induction false} StarGroupsOk(tld: CharClass, s: string)
    requires !InClass(tld, '.')
    requires Matches(Star(Group(tld)), s)
    ensures s == [] || GroupsOk(tld, s)
    decreases |s|
  {
    if s != [] {
      var k :| 1 <= k <= |s| && Matches(Group(tld), s[..k]) && Matches(Star(Group(tld)), s[k..]);
      StarGroupsOk(tld, s[k..]);
      GroupThenGroups(tld, s[..k], s[k..]);
      assert s[..k] + s[k..] == s;
    }
  }

  /** A string a `+` accepts is accepted by the corresponding `*`. */
  lemma StarOfPlus(r: Re, s: string)
    requires Matches(Plus(r), s)
    ensures Matches(Star(r), s)
  {
    var k := CatSplit(r, Star(r), s);
    if k > 0 {
      StarCons(r, s[..k], s[k..]);
      assert s[..k] + s[k..] == s;
    } else {
      assert s[k..] == s;
    }
  }

  /** The next dot after the first character, or the end of the string. */
  lemma NextDot(tld: CharClass, s: string) returns (j: nat)
    requires !InClass(tld, '.') && GroupsOk(tld, s)
    ensures 3 <= j <= |s| && (j < |s| ==> s[j] == '.')
    ensures AllIn(tld, s[1..j])
  {
    assert InGroups(tld, s, 0);
    j := 1;
    while j < |s| && s[j] != '.'
      invariant 1 <= j <= |s| && AllIn(tld, s[1..j])
      decreases |s| - j
    {
      assert InGroups(tld, s, j);
      assert s[1..j + 1] == s[1..j] + [s[j]];
      j := j + 1;
    }
    assert s[1] != '.' && s[2] != '.';
  }

  lemma AfterGroup(tld: CharClass, s: string, j: nat)
    requires GroupsOk(tld, s) && 0 < j < |s| && s[j] == '.'
    ensures GroupsOk(tld, s[j..])
  {
    var r := s[j..];
    forall m | 0 <= m < |r| ensures InGroups(tld, r, m) {
      assert InGroups(tld, s, j + m);
      assert r[m] == s[j + m];
      if !InClass(tld, r[m]) {
        assert r[m + 1] == s[j + m + 1] && r[m + 2] == s[j + m + 2];
      }
    }
  }

  lemma {:induction false} GroupsOkMatches(tld: CharClass, s: string)
    requires !InClass(tld, '.') && GroupsOk(tld, s)
    ensures Matches(Plus(Group(tld)), s)
    decreases |s|
  {
    var j := NextDot(tld, s);
    GroupExactly(tld, s[..j]);
    assert s[..j][1..] == s[1..j];
    if j == |s| {
      assert s[..j] == s;
      CatOf(Group(tld), Star(Group(tld)), s, [], s);
    } else {
      AfterGroup(tld, s, j);
      GroupsOkMatches(tld, s[j..]);
      StarOfPlus(Group(tld), s[j..]);
      CatOf(Group(tld), Star(Group(tld)), s[..j], s[j..], s);
    }
  }

  /** `(\.[T]{2,})+` accepts exactly the strings `GroupsOk` describes. */
  lemma GroupsExactly(tld: CharClass, s: string)
    requires !InClass(tld, '.')
    ensures Matches(Plus(Group(tld)), s) <==> GroupsOk(tld, s)
  {
    if Matches(Plus(Group(tld)), s) {
      var k := CatSplit(Group(tld), Star(Group(tld)), s);
      StarGroupsOk(tld, s[k..]);
      GroupThenGroups(tld, s[..k], s[k..]);
      assert s[..k] + s[k..] == s;
    }
    if GroupsOk(tld, s) {
      GroupsOkMatches(tld, s);
    }
  }

  /** `[D]+(\.[T]{2,})+`: the domain of an address. */
  function Host(d: CharClass, tld: CharClass): Re {
    Cat(Plus(Class(d)), Plus(Group(tld)))
  }

  predicate HostOk(d: CharClass, tld: CharClass, s: string) {
    exists k :: 0 < k < |s| && AllIn(d, s[..k]) && GroupsOk(tld, s[k..])
  }

  lemma HostExactly(d: CharClass, tld: CharClass, s: string)
    requires !InClass(tld, '.')
    ensures Matches(Host(d, tld), s) <==> HostOk(d, tld, s)
  {
    if Matches(Host(d, tld), s) {
      var k := CatSplit(Plus(Class(d)), Plus(Group(tld)), s);
      PlusClass(d, s[..k]);
      GroupsExactly(tld, s[k..]);
    }
    if HostOk(d, tld, s) {
      var k :| 0 < k < |s| && AllIn(d, s[..k]) && GroupsOk(tld, s[k..]);
      PlusClass(d, s[..k]);
      GroupsExactly(tld, s[k..]);
      CatOf(Plus(Class(d)), Plus(Group(tld)), s[..k], s[k..], s);
    }
  }

  /** The whole address pattern `<local>@<host>`. */
  function Email(w: CharClass, sep: CharClass, d: CharClass, tld: CharClass): Re {
    Cat(Local(w, sep), Cat(Lit('@'), Host(d, tld)))
  }

  /** An address: some `@` with a valid local part before it and a valid
      domain after it. */
  predicate EmailOk(w: CharClass, sep: CharClass, d: CharClass, tld: CharClass, s: string) {
    exists k :: 0 <= k < |s| && s[k] == '@' && LocalOk(w, sep, s[..k]) && HostOk(d, tld, s[k + 1..])
  }

  lemma AtThenHost(d: CharClass, tld: CharClass, s: string)
    requires !InClass(tld, '.')
    ensures Matches(Cat(Lit('@'), Host(d, tld)), s) <==> (s != [] && s[0] == '@' && HostOk(d, tld, s[1..]))
  {
    if Matches(Cat(Lit('@'), Host(d, tld)), s) {
      var k := CatSplit(Lit('@'), Host(d, tld), s);
      LitMatches('@', s[..k]);
      assert k == 1 && s[0] == s[..k][0];
      HostExactly(d, tld, s[k..]);
    }
    if s != [] && s[0] == '@' && HostOk(d, tld, s[1..]) {
      LitMatches('@', s[..1]);
      assert s[..1] == ['@'];
      HostExactly(d, tld, s[1..]);
      CatOf(Lit('@'), Host(d, tld), s[..1], s[1..], s);
    }
  }

  /** The address pattern accepts exactly the strings `EmailOk` describes. */
  lemma EmailExactly(w: CharClass, sep: CharClass, d: CharClass, tld: CharClass, s: string)
    requires !InClass(tld, '.')
    ensures Matches(Email(w, sep, d, tld), s) <==> EmailOk(w, sep, d, tld, s)
  {
    if Matches(Email(w, sep, d, tld), s) {
      EmailMatchesOk(w, sep, d, tld, s);
    }
    if EmailOk(w, sep, d, tld, s) {
      var k :| 0 <= k < |s| && s[k] == '@' && LocalOk(w, sep, s[..k]) && HostOk(d, tld, s[k + 1..]);
      EmailOkMatches(w, sep, d, tld, s, k);
    }
  }

  lemma EmailMatchesOk(w: CharClass, sep: CharClass, d: CharClass, tld: CharClass, s: string)
    requires !InClass(tld, '.') && Matches(Email(w, sep, d, tld), s)
    ensures EmailOk(w, sep, d, tld, s)
  {
    var k := CatSplit(Local(w, sep), Cat(Lit('@'), Host(d, tld)), s);
    LocalExactly(w, sep, s[..k]);
    AtThenHost(d, tld, s[k..]);
    assert s[k..][1..] == s[k + 1..];
    assert s[k] == s[k..][0];
    assert 0 <= k < |s| && s[k] == '@' && LocalOk(w, sep, s[..k]) && HostOk(d, tld, s[k + 1..]);
  }

  lemma EmailOkMatches(w: CharClass, sep: CharClass, d: CharClass, tld: CharClass, s: string, k: nat)
    requires !InClass(tld, '.')
    requires k < |s| && s[k] == '@' && LocalOk(w, sep, s[..k]) && HostOk(d, tld, s[k + 1..])
    ensures Matches(Email(w, sep, d, tld), s)
  {
    LocalExactly(w, sep, s[..k]);
    assert s[k..][1..] == s[k + 1..];
    AtThenHost(d, tld, s[k..]);
    CatOf(Local(w, sep), Cat(Lit('@'), Host(d, tld)), s[..k], s[k..], s);
  }
}
