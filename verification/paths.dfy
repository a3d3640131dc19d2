/** How an imported file's path becomes the catalog's `name`, `extension` and `url`.
    Both the import queue and the API's preprocessing step use the same three rules:
    `name = path.split(os.sep)[-1]`, `extension = name.split('.')[-1]`, `url = "/images/" + path`. */
module Paths {

  /** `os.sep` on a POSIX host; the Windows separator `\\` is not modelled. */
  const Sep: char := '/'

  /** The prefix every catalog url starts with. */
  const ImagesPrefix: string := "/images/"

  /** `seg` is what follows the last `sep` of `s`: a `sep`-free suffix that is all of `s` or comes right after a
      `sep`. At most one string is (LastSegmentUnique). */
  predicate IsLastSegment(s: string, sep: char, seg: string)
  {
    && sep !in seg
    && |seg| <= |s| && seg == s[|s| - |seg|..]
    && (|seg| < |s| ==> s[|s| - |seg| - 1] == sep)
  }

  /** `s.split(sep)[-1]`: the text after the last `sep`, or all of `s` when `sep` does not occur. */
  function LastSegment(s: string, sep: char): (r: string)
    ensures sep !in r
    ensures |r| <= |s| && r == s[|s| - |r|..]
    ensures |r| < |s| ==> s[|s| - |r| - 1] == sep
    ensures sep !in s <==> r == s
  {
    if |s| == 0 then ""
    else if s[|s| - 1] == sep then ""
    else LastSegment(s[..|s| - 1], sep) + [s[|s| - 1]]
  }

  /** The file name of a path: its last `/`-separated segment. */
  function FileName(path: string): (name: string)
    ensures Sep !in name
    ensures |name| <= |path| && name == path[|path| - |name|..]
    ensures |name| < |path| ==> path[|path| - |name| - 1] == Sep
    ensures Sep !in path <==> name == path
  {
    LastSegment(path, Sep)
  }

  /** The extension of a file name: the text after its last '.'; a name without '.' is its own extension. */
  function Extension(name: string): (ext: string)
    ensures '.' !in ext
    ensures |ext| <= |name| && ext == name[|name| - |ext|..]
    ensures |ext| < |name| ==> name[|name| - |ext| - 1] == '.'
    ensures '.' !in name <==> ext == name
  {
    LastSegment(name, '.')
  }

  /** The url under which an imported file is served. */
  function ImageUrl(path: string): (url: string)
    ensures |url| == |ImagesPrefix| + |path|
    ensures url[..|ImagesPrefix|] == ImagesPrefix && url[|ImagesPrefix|..] == path
  {
    ImagesPrefix + path
  }

  /** Splitting undoes joining: whatever precedes the last separator, the segment after it comes back. */
  lemma {:induction false} LastSegmentOfJoin(prefix: string, sep: char, segment: string)
    requires sep !in segment
    ensures LastSegment(prefix + [sep] + segment, sep) == segment
  {
    if |segment| == 0 {
      assert (prefix + [sep] + segment)[|prefix + [sep] + segment| - 1] == sep;
    } else {
      var s := prefix + [sep] + segment;
      var init := segment[..|segment| - 1];
      assert s[..|s| - 1] == prefix + [sep] + init;
      assert sep !in init by {
        assert forall i :: 0 <= i < |init| ==> init[i] == segment[i];
      }
      LastSegmentOfJoin(prefix, sep, init);
      assert segment == init + [segment[|segment| - 1]];
    }
  }

  /** The url of a path determines the path. */
  lemma {:induction false} ImageUrlInjective(p: string, q: string)
    requires ImageUrl(p) == ImageUrl(q)
    ensures p == q
  {
    assert p == ImageUrl(p)[|ImagesPrefix|..];
  }

  /** The last segment is determined: two strings that both follow the last `sep` of `s` are equal. */
  lemma {:induction false} LastSegmentUnique(s: string, sep: char, a: string, b: string)
    requires IsLastSegment(s, sep, a) && IsLastSegment(s, sep, b)
    ensures a == b
  {
  }
}
