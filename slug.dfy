/** Slug shaping and random slug generation of `backend/app/utils/slug.py`. */
module Slug {
  import opened Common

  /** The characters the pattern `[^a-z0-9]+` does not match. */
  predicate IsSlugChar(c: char) { IsAsciiLower(c) || IsDigit(c) }

  predicate IsNotSlugChar(c: char) { !IsSlugChar(c) }

  predicate IsDash(c: char) { c == '-' }

  predicate NoDoubleDash(s: string)
  {
    forall i :: 0 <= i < |s| - 1 ==> !(s[i] == '-' && s[i + 1] == '-')
  }

  predicate SlugCharsOrDash(s: string)
  {
    forall i :: 0 <= i < |s| ==> IsSlugChar(s[i]) || s[i] == '-'
  }

  /** `_slug_re.sub("-", s)`: every maximal run of characters outside [a-z0-9]
      becomes a single '-'. */
  function SubRuns(s: string): (r: string)
    ensures SlugCharsOrDash(r)
    ensures NoDoubleDash(r)
    ensures r == [] <==> s == []
    ensures s != [] && IsSlugChar(s[0]) ==> r[0] == s[0]
    ensures s != [] && !IsSlugChar(s[0]) ==> r[0] == '-'
    decreases |s|
  {
    if s == [] then []
    else if IsSlugChar(s[0]) then [s[0]] + SubRuns(s[1..])
    else
      var rest := LStrip(s[1..], IsNotSlugChar);
      "-" + SubRuns(rest)
  }

  /** The [a-z0-9] characters of a string, in order. */
  function SlugChars(s: string): (r: string)
  {
    if s == [] then []
    else (if IsSlugChar(s[0]) then [s[0]] else []) + SlugChars(s[1..])
  }

  lemma {:induction false} SlugCharsOfAppend(a: string, b: string)
    ensures SlugChars(a + b) == SlugChars(a) + SlugChars(b)
    decreases |a|
  {
    if a == [] {
      assert a + b == b;
    } else {
      var head := if IsSlugChar(a[0]) then [a[0]] else [];
      assert (a + b)[0] == a[0];
      assert (a + b)[1..] == a[1..] + b;
      SlugCharsOfAppend(a[1..], b);
      calc {
        SlugChars(a + b);
        head + SlugChars(a[1..] + b);
        head + (SlugChars(a[1..]) + SlugChars(b));
        (head + SlugChars(a[1..])) + SlugChars(b);
        SlugChars(a) + SlugChars(b);
      }
    }
  }

  lemma {:induction false} SlugCharsOfStripped(s: string)
    ensures SlugChars(LStrip(s, IsNotSlugChar)) == SlugChars(s)
    decreases |s|
  {
    if s != [] && IsNotSlugChar(s[0]) {
      SlugCharsOfStripped(s[1..]);
    }
  }

  /** The substitution keeps exactly the [a-z0-9] characters, in order; only the
      runs between them are rewritten. */
  lemma {:induction false} SubRunsKeepsSlugChars(s: string)
    ensures SlugChars(SubRuns(s)) == SlugChars(s)
    decreases |s|
  {
    if s != [] {
      if IsSlugChar(s[0]) {
        SubRunsKeepsSlugChars(s[1..]);
        SlugCharsOfAppend([s[0]], SubRuns(s[1..]));
      } else {
        var rest := LStrip(s[1..], IsNotSlugChar);
        SubRunsKeepsSlugChars(rest);
        SlugCharsOfStripped(s[1..]);
        SlugCharsOfAppend("-", SubRuns(rest));
      }
    }
  }

  /** `filename.rsplit(".", 1)[0]`: the text before the last '.', or all of it. */
  function DropLastExtension(filename: string): (r: string)
    ensures StartsWith(filename, r)
    ensures |r| < |filename| ==> filename[|r|] == '.' && '.' !in filename[|r| + 1..]
    ensures |r| == |filename| ==> '.' !in filename
  {
    var i := LastIndexOf(filename, '.');
    if i < 0 then filename
    else
      var tail := filename[i + 1..];
      assert forall k :: 0 <= k < |tail| ==> tail[k] == filename[i + 1 + k];
      filename[..i]
  }

  /** `s.strip("-")`. */
  function StripDashes(s: string): (r: string)
    requires SlugCharsOrDash(s) && NoDoubleDash(s)
    ensures SlugCharsOrDash(r) && NoDoubleDash(r)
    ensures r == [] || (r[0] != '-' && r[|r| - 1] != '-')
  {
    var left := LStrip(s, IsDash);
    SliceKeepsShape(s, |s| - |left|, |s|);
    var r := RStrip(left, IsDash);
    SliceKeepsShape(left, 0, |r|);
    r
  }

  /** Any slice of a string of [a-z0-9] and single dashes is one too. */
  lemma SliceKeepsShape(s: string, lo: int, hi: int)
    requires 0 <= lo <= hi <= |s|
    requires SlugCharsOrDash(s) && NoDoubleDash(s)
    ensures SlugCharsOrDash(s[lo..hi]) && NoDoubleDash(s[lo..hi])
  {
    var t := s[lo..hi];
    assert forall i :: 0 <= i < |t| ==> t[i] == s[lo + i];
  }

  /** `make_slug_base`. */
  function MakeSlugBase(filename: string): (r: string)
    ensures r != []
    ensures SlugCharsOrDash(r)
    ensures r[0] != '-' && r[|r| - 1] != '-'
    ensures NoDoubleDash(r)
  {
    var stripped := StripDashes(SubRuns(Lower(DropLastExtension(filename))));
    if stripped == [] then "file" else stripped
  }

  lemma {:induction false} SlugCharsOfLStrip(s: string)
    ensures SlugChars(LStrip(s, IsDash)) == SlugChars(s)
    decreases |s|
  {
    if s != [] && IsDash(s[0]) {
      SlugCharsOfLStrip(s[1..]);
    }
  }

  lemma {:induction false} SlugCharsOfRStrip(s: string)
    ensures SlugChars(RStrip(s, IsDash)) == SlugChars(s)
    decreases |s|
  {
    if s != [] && IsDash(s[|s| - 1]) {
      var init := s[..|s| - 1];
      SlugCharsOfRStrip(init);
      assert s == init + [s[|s| - 1]];
      SlugCharsOfAppend(init, [s[|s| - 1]]);
    }
  }

  /** Stripping the dashes at either end loses no [a-z0-9] character. */
  lemma StripDashesKeepsSlugChars(s: string)
    requires SlugCharsOrDash(s) && NoDoubleDash(s)
    ensures SlugChars(StripDashes(s)) == SlugChars(s)
  {
    SlugCharsOfLStrip(s);
    SlugCharsOfRStrip(LStrip(s, IsDash));
  }

  /** When the stem has at least one [a-z0-9] character the slug keeps all of
      them in order; otherwise it is "file". */
  lemma MakeSlugBaseKeepsSlugChars(filename: string)
    ensures var stem := SlugChars(Lower(DropLastExtension(filename)));
      (stem == [] ==> MakeSlugBase(filename) == "file")
      && (stem != [] ==> SlugChars(MakeSlugBase(filename)) == stem)
  {
    var lowered := Lower(DropLastExtension(filename));
    var collapsed := SubRuns(lowered);
    var stripped := StripDashes(collapsed);
    SubRunsKeepsSlugChars(lowered);
    StripDashesKeepsSlugChars(collapsed);
    if stripped != [] {
      NoSlugCharsOnlyDashes(stripped);
    }
  }

  lemma {:induction false} NoSlugCharsOnlyDashes(s: string)
    requires s != [] && s[0] != '-' && SlugCharsOrDash(s)
    ensures SlugChars(s) != []
  {
    assert IsSlugChar(s[0]);
    SlugCharsOfAppend([s[0]], s[1..]);
    assert s == [s[0]] + s[1..];
  }

  /** `rsplit(".", 1)[0]` drops exactly the text after the last '.'. */
  lemma DropLastExtensionOf(stem: string, ext: string)
    requires '.' !in ext
    ensures DropLastExtension(stem + "." + ext) == stem
  {
    var f := stem + "." + ext;
    var r := DropLastExtension(f);
    assert f[|stem|] == '.';
    assert r == f[..|r|];
    assert f[..|stem|] == stem;
  }

  lemma {:induction false} SlugCharsOfNone(s: string)
    requires forall i :: 0 <= i < |s| ==> !IsSlugChar(s[i])
    ensures SlugChars(s) == []
    decreases |s|
  {
    if s != [] {
      SlugCharsOfNone(s[1..]);
    }
  }

  /** A stem with no letter or digit (dashes, spaces, punctuation) leaves
      nothing for the slug, which falls back to "file". */
  lemma NoSlugCharsGiveFile(stem: string, ext: string)
    requires '.' !in ext
    requires forall i :: 0 <= i < |stem| ==> !IsSlugChar(LowerChar(stem[i]))
    ensures MakeSlugBase(stem + "." + ext) == "file"
  {
    DropLastExtensionOf(stem, ext);
    SlugCharsOfNone(Lower(stem));
    MakeSlugBaseKeepsSlugChars(stem + "." + ext);
  }

  predicate AllSlugChars(s: string)
  {
    forall i :: 0 <= i < |s| ==> IsSlugChar(s[i])
  }

  /** Two words split by one other character (a space, an underscore, an
      inner '.') become the lowered words joined by a dash; only the last
      extension is dropped. */
  lemma SeparatedWordsJoinWithDash(a: string, c: char, b: string, ext: string)
    requires a != [] && b != [] && '.' !in ext
    requires AllSlugChars(Lower(a)) && AllSlugChars(Lower(b)) && !IsSlugChar(LowerChar(c))
    ensures MakeSlugBase(a + [c] + b + "." + ext) == Lower(a) + "-" + Lower(b)
  {
    var stem := a + [c] + b;
    DropLastExtensionOf(stem, ext);
    assert Lower(stem) == Lower(a) + ([LowerChar(c)] + Lower(b));
    SubRunsOfWords(Lower(a), LowerChar(c), Lower(b));
    StripDashesOfUndashed(Lower(a) + "-" + Lower(b));
  }

  lemma SubRunsOfWords(la: string, c: char, lb: string)
    requires lb != [] && AllSlugChars(la) && AllSlugChars(lb) && !IsSlugChar(c)
    ensures SubRuns(la + ([c] + lb)) == la + "-" + lb
  {
    var t := [c] + lb;
    SubRunsSlugPrefix(la, t);
    SubRunsOneSeparator(c, lb);
    SubRunsOfSlugChars(lb);
    assert SubRuns(t) == "-" + lb;
    assert la + ("-" + lb) == la + "-" + lb;
  }

  /** A string of [a-z0-9] characters only is left as it is. */
  lemma {:induction false} SubRunsOfSlugChars(s: string)
    requires AllSlugChars(s)
    ensures SubRuns(s) == s
    decreases |s|
  {
    if s != [] {
      SubRunsOfSlugChars(s[1..]);
      assert s == [s[0]] + s[1..];
    }
  }

  lemma StripDashesOfUndashed(s: string)
    requires s != [] && s[0] != '-' && s[|s| - 1] != '-'
    requires SlugCharsOrDash(s) && NoDoubleDash(s)
    ensures StripDashes(s) == s
  {
    assert LStrip(s, IsDash) == s;
    assert RStrip(s, IsDash) == s;
  }

  /** A leading run of [a-z0-9] characters passes through the substitution. */
  lemma {:induction false} SubRunsSlugPrefix(a: string, rest: string)
    requires AllSlugChars(a)
    ensures SubRuns(a + rest) == a + SubRuns(rest)
    decreases |a|
  {
    if a == [] {
      assert a + rest == rest;
    } else {
      assert (a + rest)[0] == a[0];
      assert (a + rest)[1..] == a[1..] + rest;
      SubRunsSlugPrefix(a[1..], rest);
    }
  }

  /** A single separator before an [a-z0-9] character becomes one dash. */
  lemma SubRunsOneSeparator(c: char, b: string)
    requires !IsSlugChar(c) && b != [] && IsSlugChar(b[0])
    ensures SubRuns([c] + b) == "-" + SubRuns(b)
  {
    assert ([c] + b)[1..] == b;
    assert LStrip(b, IsNotSlugChar) == b;
  }

  // ---------------------------------------------------------------- random slugs

  const Alphabet: string := "abcdefghijklmnopqrstuvwxyz0123456789"

  type AlphabetIndex = i: int | 0 <= i < 36

  lemma AlphabetIsSlugChars()
    ensures |Alphabet| == 36
    ensures forall i :: 0 <= i < 36 ==> IsSlugChar(Alphabet[i])
  {
  }

  /** `generate_random_slug(length)`; `pick(i)` stands for the index that
      `secrets.choice` draws for position `i`. */
  function GenerateRandomSlug(length: int, pick: nat -> AlphabetIndex): (r: Result<string, Failure>)
    ensures r.Err? <==> length < 8
    ensures r.Err? ==> r.error == Raised("length must be >= 8")
    ensures r.Ok? ==> |r.value| == length
                      && forall i :: 0 <= i < |r.value| ==> IsSlugChar(r.value[i])
  {
    if length < 8 then Err(Raised("length must be >= 8"))
    else
      AlphabetIsSlugChars();
      Ok(seq(length, i requires 0 <= i < length => Alphabet[pick(i)]))
  }

  function AlphabetIndexOf(c: char): (i: AlphabetIndex)
    requires IsSlugChar(c)
    ensures Alphabet[i] == c
  {
    if IsAsciiLower(c) then c as int - 'a' as int else 26 + c as int - '0' as int
  }

  /** Every string of at least 8 characters from [a-z0-9] is a possible slug:
      the generator does not favour or exclude any of them. */
  lemma RandomSlugCoversAll(s: string)
    requires |s| >= 8 && forall i :: 0 <= i < |s| ==> IsSlugChar(s[i])
    ensures exists pick: nat -> AlphabetIndex :: GenerateRandomSlug(|s|, pick) == Ok(s)
  {
    var pick: nat -> AlphabetIndex := (i: nat) => if i < |s| then AlphabetIndexOf(s[i]) else 0;
    assert GenerateRandomSlug(|s|, pick).value == s;
  }
}
