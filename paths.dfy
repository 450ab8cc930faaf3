/** `os.path.basename` and the root half of `os.path.splitext`, for POSIX paths. */
module Paths {
  import opened Wrappers
  import opened Strings

  /** `os.path.basename(path)`: what follows the last '/'. */
  function BaseName(path: string): string
  {
    match LastIndexOf(path, '/')
    case None => path
    case Some(i) => path[i + 1..]
  }

  /** The base name is the final component: a suffix with no '/', preceded
      by a '/' unless it is the whole path. */
  lemma BaseNameIsLastComponent(path: string)
    ensures var name := BaseName(path);
      '/' !in name && |name| <= |path| && name == path[|path| - |name|..] &&
      (|name| < |path| ==> path[|path| - |name| - 1] == '/')
  {
  }

  /** `s` holds nothing but dots: the leading-dot scan of `splitext`. */
  predicate OnlyDots(s: string)
  {
    |s| == 0 || (s[0] == '.' && OnlyDots(s[1..]))
  }

  lemma {:induction false} OnlyDotsIff(s: string)
    ensures OnlyDots(s) <==> forall k :: 0 <= k < |s| ==> s[k] == '.'
  {
    if |s| > 0 {
      OnlyDotsIff(s[1..]);
      assert forall k :: 1 <= k < |s| ==> s[k] == s[1..][k - 1];
    }
  }

  /** `os.path.splitext(name)[0]` for a name without '/': everything before
      the last dot, unless only dots precede it (".profile" keeps its dot). */
  function StemOf(name: string): string
  {
    match LastIndexOf(name, '.')
    case None => name
    case Some(i) => if OnlyDots(name[..i]) then name else name[..i]
  }

  /** The root is a prefix of the name; what is cut off is one extension,
      a dot and no further dot, and the root is not dots alone. */
  lemma StemDropsExtension(name: string)
    ensures var root := StemOf(name);
      |root| <= |name| && root == name[..|root|] &&
      (root != name ==> name[|root|] == '.' && '.' !in name[|root| + 1..] && !OnlyDots(root))
  {
  }

  /** The sample identifier the program derives from a coverage file's path. */
  function SampleId(path: string): (id: string)
    ensures |id| <= |BaseName(path)| <= |path| && '/' !in id
    ensures id == BaseName(path)[..|id|]
  {
    BaseNameIsLastComponent(path);
    StemDropsExtension(BaseName(path));
    var id := StemOf(BaseName(path));
    assert forall k :: 0 <= k < |id| ==> id[k] == BaseName(path)[k];
    id
  }

  /** The last occurrence of `c` is at `i` when `c` occurs there and not after. */
  lemma LastIndexAt(s: string, c: char, i: nat)
    requires i < |s| && s[i] == c && c !in s[i + 1..]
    ensures LastIndexOf(s, c) == Some(i)
  {
  }

  /** The base name of `dir/name` is `name`. */
  lemma BaseNameOfJoin(dir: string, name: string)
    requires '/' !in name
    ensures BaseName(dir + "/" + name) == name
  {
    var path := dir + "/" + name;
    assert path[|dir| + 1..] == name;
    LastIndexAt(path, '/', |dir|);
  }

  /** Splitting the extension off `stem.ext` gives `stem`. */
  lemma StemOfExtension(stem: string, ext: string)
    requires '.' !in ext && !OnlyDots(stem)
    ensures StemOf(stem + "." + ext) == stem
  {
    var name := stem + "." + ext;
    assert name[|stem| + 1..] == ext;
    LastIndexAt(name, '.', |stem|);
    assert name[..|stem|] == stem;
  }

  /** For the files the program lists, `<dir>/<x>.bam.bed.gz`, the identifier
      is `<x>.bam.bed`. */
  lemma SampleIdOfBedFile(dir: string, x: string)
    requires '/' !in x
    ensures SampleId(dir + "/" + x + ".bam.bed.gz") == x + ".bam.bed"
  {
    var stem := x + ".bam.bed";
    assert dir + "/" + x + ".bam.bed.gz" == dir + "/" + (stem + "." + "gz");
    assert '/' !in stem + "." + "gz";
    BaseNameOfJoin(dir, stem + "." + "gz");
    assert stem[|x| + 1] == 'b';
    OnlyDotsIff(stem);
    StemOfExtension(stem, "gz");
  }
}
