/** The pure parts of the seed loader: `toTitleCase`, which rewrites every
    match of the global regular expression `\w\S*`, and the rule that turns the
    name of a seed file into the name of the model it fills. Case mapping is
    ASCII only. */
module Seed {

  /** `\w`: an ASCII letter, digit or underscore. */
  predicate IsWordChar(c: char)
  {
    'A' <= c <= 'Z' || 'a' <= c <= 'z' || '0' <= c <= '9' || c == '_'
  }

  /** `\s`: ECMAScript white space and line terminators. */
  predicate IsSpaceChar(c: char)
  {
    var n := c as int;
    || n == 0x09 || n == 0x0A || n == 0x0B || n == 0x0C || n == 0x0D || n == 0x20
    || n == 0xA0 || n == 0x1680 || 0x2000 <= n <= 0x200A || n == 0x2028 || n == 0x2029
    || n == 0x202F || n == 0x205F || n == 0x3000 || n == 0xFEFF
  }

  /** `toUpperCase` on one character, ASCII letters only. */
  function Upper(c: char): char
  {
    if 'a' <= c <= 'z' then (c as int - 32) as char else c
  }

  /** `toLowerCase` on one character, ASCII letters only. */
  function Lower(c: char): char
  {
    if 'A' <= c <= 'Z' then (c as int + 32) as char else c
  }

  /** Whether the scan is inside a match after reading `c`: a match starts
      at a word character and runs up to the next white space. */
  function Step(inMatch: bool, c: char): bool
  {
    if inMatch then !IsSpaceChar(c) else IsWordChar(c)
  }

  /** What the replacement makes of `c`: the first character of a match is
      upper-cased, the rest of the match lower-cased, and everything
      outside a match is kept. */
  function Emit(inMatch: bool, c: char): char
  {
    if inMatch then (if IsSpaceChar(c) then c else Lower(c))
    else if IsWordChar(c) then Upper(c)
    else c
  }

  /** The global replace, one character at a time, starting in the given
      state. */
  function Replace(s: string, inMatch: bool): (r: string)
    ensures |r| == |s|
  {
    if s == [] then []
    else [Emit(inMatch, s[0])] + Replace(s[1..], Step(inMatch, s[0]))
  }

  /** `toTitleCase(str)`; the lemmas below say run by run what it does. */
  function ToTitleCase(s: string): (r: string)
    ensures |r| == |s|
  {
    Replace(s, false)
  }

  /** The scan's state after reading all of `p`. */
  function StateAfter(p: string, inMatch: bool): bool
  {
    if p == [] then inMatch else StateAfter(p[1..], Step(inMatch, p[0]))
  }

  lemma {:induction false} StateAfterSnoc(p: string, c: char, inMatch: bool)
    ensures StateAfter(p + [c], inMatch) == Step(StateAfter(p, inMatch), c)
  {
    if p != [] {
      assert (p + [c])[1..] == p[1..] + [c];
      StateAfterSnoc(p[1..], c, Step(inMatch, p[0]));
    }
  }

  /** Each output character is the replacement of the input character in
      the state the scan has reached there. */
  lemma {:induction false} ReplaceAt(s: string, inMatch: bool, i: nat)
    requires i < |s|
    ensures Replace(s, inMatch)[i] == Emit(StateAfter(s[..i], inMatch), s[i])
  {
    if i > 0 {
      ReplaceAt(s[1..], Step(inMatch, s[0]), i - 1);
      assert s[..i][1..] == s[1..][..i - 1];
    }
  }

  /** `toTitleCase` keeps the length and every white-space character. */
  lemma TitleCaseKeepsSpaces(s: string)
    ensures |ToTitleCase(s)| == |s|
    ensures forall i | 0 <= i < |s| && IsSpaceChar(s[i]) :: ToTitleCase(s)[i] == s[i]
  {
    forall i | 0 <= i < |s| && IsSpaceChar(s[i])
      ensures ToTitleCase(s)[i] == s[i]
    {
      ReplaceAt(s, false, i);
    }
  }

  /** `a` begins a run of non-white-space characters. */
  predicate RunStart(s: string, a: nat)
  {
    a <= |s| && (a == 0 || IsSpaceChar(s[a - 1]))
  }

  predicate NoSpaceIn(s: string, a: nat, b: nat)
    requires a <= b <= |s|
  {
    forall j | a <= j < b :: !IsSpaceChar(s[j])
  }

  predicate HasWordIn(s: string, a: nat, b: nat)
    requires a <= b <= |s|
  {
    exists j | a <= j < b :: IsWordChar(s[j])
  }

  /** Inside a run, the scan is in a match exactly when the run has shown a
      word character already. */
  lemma {:induction false} StateInRun(s: string, a: nat, i: nat)
    requires RunStart(s, a)
    requires a <= i <= |s|
    requires NoSpaceIn(s, a, i)
    ensures StateAfter(s[..i], false) <==> HasWordIn(s, a, i)
  {
    if i == a {
      if a > 0 {
        assert s[..a] == s[..a - 1] + [s[a - 1]];
        StateAfterSnoc(s[..a - 1], s[a - 1], false);
      }
    } else {
      StateInRun(s, a, i - 1);
      assert s[..i] == s[..i - 1] + [s[i - 1]];
      StateAfterSnoc(s[..i - 1], s[i - 1], false);
      if IsWordChar(s[i - 1]) {
        assert HasWordIn(s, a, i);
      } else if HasWordIn(s, a, i) {
        var j :| a <= j < i && IsWordChar(s[j]);
        assert j < i - 1;
        assert HasWordIn(s, a, i - 1);
      }
    }
  }

  /** In a run whose first word character is at `w`: what precedes `w` is
      kept, `s[w]` is upper-cased and the rest of the run is lower-cased. */
  lemma TitleCaseRun(s: string, a: nat, w: nat, b: nat)
    requires RunStart(s, a)
    requires a <= w < b <= |s|
    requires NoSpaceIn(s, a, b)
    requires IsWordChar(s[w])
    requires !HasWordIn(s, a, w)
    ensures forall i | a <= i < w :: ToTitleCase(s)[i] == s[i]
    ensures ToTitleCase(s)[w] == Upper(s[w])
    ensures forall i | w < i < b :: ToTitleCase(s)[i] == Lower(s[i])
  {
    forall i | a <= i < b
      ensures ToTitleCase(s)[i] == if i < w then s[i] else if i == w then Upper(s[w]) else Lower(s[i])
    {
      ReplaceAt(s, false, i);
      StateInRun(s, a, i);
      if i > w {
        assert HasWordIn(s, a, i);
      } else {
        assert !HasWordIn(s, a, i);
      }
    }
  }

  /** A run with no word character is left as it is. */
  lemma TitleCaseRunWithoutWord(s: string, a: nat, b: nat)
    requires RunStart(s, a)
    requires a <= b <= |s|
    requires NoSpaceIn(s, a, b)
    requires !HasWordIn(s, a, b)
    ensures ToTitleCase(s)[a..b] == s[a..b]
  {
    forall i | a <= i < b
      ensures ToTitleCase(s)[i] == s[i]
    {
      ReplaceAt(s, false, i);
      StateInRun(s, a, i);
      assert !HasWordIn(s, a, i);
    }
  }

  /** Replacing a character again gives it back, and keeps its class. */
  lemma EmitStable(inMatch: bool, c: char)
    ensures Emit(inMatch, Emit(inMatch, c)) == Emit(inMatch, c)
    ensures Step(inMatch, Emit(inMatch, c)) == Step(inMatch, c)
  {
  }

  lemma {:induction false} ReplaceIdempotent(s: string, inMatch: bool)
    ensures Replace(Replace(s, inMatch), inMatch) == Replace(s, inMatch)
  {
    if s != [] {
      var t := Replace(s, inMatch);
      EmitStable(inMatch, s[0]);
      ReplaceIdempotent(s[1..], Step(inMatch, s[0]));
      assert t[1..] == Replace(s[1..], Step(inMatch, s[0]));
    }
  }

  /** `toTitleCase` applied twice gives what it gives once. */
  lemma TitleCaseIdempotent(s: string)
    ensures ToTitleCase(ToTitleCase(s)) == ToTitleCase(s)
  {
    ReplaceIdempotent(s, false);
  }

  const SEED_SUFFIX: string := ".seed.js"

  /** `s.endsWith(suffix)`. */
  predicate EndsWith(s: string, suffix: string)
  {
    |suffix| <= |s| && s[|s| - |suffix|..] == suffix
  }

  /** The directory entries whose names end with `.seed.js`. */
  function SeedFiles(dir: seq<string>): (r: seq<string>)
    ensures |r| <= |dir|
    ensures forall f :: f in r <==> f in dir && EndsWith(f, SEED_SUFFIX)
  {
    if dir == [] then []
    else if EndsWith(dir[0], SEED_SUFFIX) then [dir[0]] + SeedFiles(dir[1..])
    else SeedFiles(dir[1..])
  }

  /** The suffix occurs in `s` starting at position `j`. */
  predicate SuffixAt(s: string, j: nat)
  {
    j + |SEED_SUFFIX| <= |s| && s[j..j + |SEED_SUFFIX|] == SEED_SUFFIX
  }

  lemma SuffixAtTail(s: string, j: nat)
    requires 0 < j < |s|
    ensures SuffixAt(s, j) == SuffixAt(s[1..], j - 1)
  {
    var n := |SEED_SUFFIX|;
    if j + n <= |s| {
      assert s[j..j + n] == s[1..][j - 1..j - 1 + n];
    }
  }

  /** The first piece when `s` is split at `.seed.js`: everything before the
      first occurrence, or all of `s` when there is none. */
  function BeforeSuffix(s: string): (r: string)
    ensures r <= s
    ensures forall j | 0 <= j < |r| :: !SuffixAt(s, j)
    ensures |r| < |s| ==> SuffixAt(s, |r|)
  {
    if s == [] then []
    else if SuffixAt(s, 0) then []
    else
      var r := [s[0]] + BeforeSuffix(s[1..]);
      assert forall j | 0 < j < |s| :: SuffixAt(s, j) == SuffixAt(s[1..], j - 1) by {
        forall j | 0 < j < |s| ensures SuffixAt(s, j) == SuffixAt(s[1..], j - 1) {
          SuffixAtTail(s, j);
        }
      }
      r
  }

  /** The model a seed file fills: the title-cased part before `.seed.js`. */
  function ModelName(file: string): (r: string)
    ensures |r| <= |file|
    ensures (forall j | 0 <= j < |file| :: !SuffixAt(file, j)) ==> r == ToTitleCase(file)
  {
    var b := BeforeSuffix(file);
    assert (forall j | 0 <= j < |file| :: !SuffixAt(file, j)) ==> b == file by {
      if |b| < |file| {
        assert SuffixAt(file, |b|);
      }
    }
    ToTitleCase(b)
  }

  /** The suffix cannot start inside a name and end inside the suffix that
      follows it: no proper prefix of `.seed.js` is also a suffix of it. */
  lemma NoStraddle(name: string, j: nat)
    requires j < |name| < j + |SEED_SUFFIX|
    ensures !SuffixAt(name + SEED_SUFFIX, j)
  {
    var s := name + SEED_SUFFIX;
    var d := |name| - j;
    if j + 8 <= |s| {
      var window := s[j..j + 8];
      if d == 5 {
        assert window[6] == s[|name| + 1] == 's' != SEED_SUFFIX[6];
      } else {
        assert window[d] == s[|name|] == '.' != SEED_SUFFIX[d];
      }
    }
  }

  /** For a seed file `name.seed.js` whose name does not itself contain
      `.seed.js`, the model name is the title-cased name. */
  lemma ModelNameOfSeedFile(name: string)
    requires forall j | 0 <= j < |name| :: !SuffixAt(name, j)
    ensures EndsWith(name + SEED_SUFFIX, SEED_SUFFIX)
    ensures ModelName(name + SEED_SUFFIX) == ToTitleCase(name)
  {
    var s := name + SEED_SUFFIX;
    assert s[|s| - |SEED_SUFFIX|..] == SEED_SUFFIX;
    var r := BeforeSuffix(s);
    assert SuffixAt(s, |name|) by {
      assert s[|name|..|name| + |SEED_SUFFIX|] == SEED_SUFFIX;
    }
    if |r| < |name| {
      var j := |r|;
      assert SuffixAt(s, j);
      if j + |SEED_SUFFIX| <= |name| {
        assert s[j..j + |SEED_SUFFIX|] == name[j..j + |SEED_SUFFIX|];
        assert SuffixAt(name, j);
      } else {
        NoStraddle(name, j);
      }
    }
    assert |r| == |name|;
    assert r == s[..|name|] == name;
  }

  /** `recipe.seed.js` fills the model `Recipe`. */
  lemma RecipeModelName()
    ensures ModelName("recipe.seed.js") == "Recipe"
  {
    var name := "recipe";
    calc {
      ModelName("recipe.seed.js");
      { assert "recipe.seed.js" == name + SEED_SUFFIX; }
      ModelName(name + SEED_SUFFIX);
      { ModelNameOfSeedFile(name); }
      ToTitleCase(name);
      { RecipeTitle(); }
      "Recipe";
    }
  }

  lemma RecipeTitle()
    ensures ToTitleCase("recipe") == "Recipe"
  {
    assert Replace("", true) == [];
    assert Replace("e", true) == "e";
    assert Replace("pe", true) == "pe";
    assert Replace("ipe", true) == "ipe";
    assert Replace("cipe", true) == "cipe";
    assert Replace("ecipe", true) == "ecipe";
  }
}
