/**
 * The upload extension check `allowed_file` of app.py: a file name is
 * accepted when it contains a dot and the text after its LAST dot,
 * lower-cased, is one of the allowed raster extensions.
 */
module Upload {
  import opened Wrappers

  /** `app.config['ALLOWED_EXTENSIONS']`. */
  const AllowedExtensions: set<string> := {"jpg", "jpeg", "png"}

  /** Lower-casing of one character (ASCII letters only). */
  function LowerChar(c: char): (r: char)
    ensures !('A' <= r <= 'Z')
    ensures !('A' <= c <= 'Z') ==> r == c
    ensures 'A' <= c <= 'Z' ==> r as int - c as int == 'a' as int - 'A' as int
  {
    if 'A' <= c <= 'Z' then (c as int - 'A' as int + 'a' as int) as char else c
  }

  /** `str.lower()`, character by character. */
  function Lower(s: string): (r: string)
    ensures |r| == |s|
    ensures forall i :: 0 <= i < |s| ==> r[i] == LowerChar(s[i])
  {
    seq(|s|, i requires 0 <= i < |s| => LowerChar(s[i]))
  }

  /** The position of the last occurrence of `c` in `s`, if any. */
  function LastIndexOf(s: string, c: char): (r: Option<nat>)
    ensures r.None? <==> c !in s
    ensures r.Some? ==> r.value < |s| && s[r.value] == c
    ensures r.Some? ==> forall j :: r.value < j < |s| ==> s[j] != c
  {
    if |s| == 0 then None
    else if s[|s| - 1] == c then Some(|s| - 1)
    else LastIndexOf(s[..|s| - 1], c)
  }

  /**
   * `s.rsplit(sep, 1)`: the whole string when `sep` does not occur,
   * otherwise the text before and the text after the last `sep`.
   */
  function RSplitOnce(s: string, sep: char): (parts: seq<string>)
    ensures sep !in s ==> parts == [s]
    ensures sep in s ==> |parts| == 2 && s == parts[0] + [sep] + parts[1] && sep !in parts[1]
  {
    match LastIndexOf(s, sep)
    case None => [s]
    case Some(i) =>
      assert s == s[..i] + [sep] + s[i + 1..];
      [s[..i], s[i + 1..]]
  }

  /**
   * `allowed_file(filename)`. An accepted name holds a dot followed by at
   * least the three letters of the shortest allowed extension.
   */
  predicate AllowedFile(filename: string)
    ensures AllowedFile(filename) ==> '.' in filename && |filename| >= 4
  {
    '.' in filename && Lower(RSplitOnce(filename, '.')[1]) in AllowedExtensions
  }

  /** A dot with no dot after it is the last dot, and `rsplit` cuts there. */
  lemma {:induction false} CutAtLastDot(f: string, i: nat)
    requires i < |f| && f[i] == '.' && '.' !in f[i + 1..]
    ensures RSplitOnce(f, '.') == [f[..i], f[i + 1..]]
  {
    var k := LastIndexOf(f, '.').value;
    assert k == i;
  }

  /**
   * The verdict in terms of positions: some dot, with no dot after it, is
   * followed by an allowed extension once lower-cased.
   */
  lemma AllowedFileIff(f: string)
    ensures AllowedFile(f) <==>
      exists i :: 0 <= i < |f| && f[i] == '.' && '.' !in f[i + 1..] && Lower(f[i + 1..]) in AllowedExtensions
  {
    if AllowedFile(f) {
      var i := LastIndexOf(f, '.').value;
      CutAtLastDot(f, i);
    }
    if exists i :: 0 <= i < |f| && f[i] == '.' && '.' !in f[i + 1..] && Lower(f[i + 1..]) in AllowedExtensions {
      var i :| 0 <= i < |f| && f[i] == '.' && '.' !in f[i + 1..] && Lower(f[i + 1..]) in AllowedExtensions;
      CutAtLastDot(f, i);
    }
  }

  /** Only the final extension counts: whatever precedes the last dot is irrelevant. */
  lemma {:induction false} FinalExtensionDecides(stem: string, ext: string)
    requires '.' !in ext
    ensures AllowedFile(stem + "." + ext) <==> Lower(ext) in AllowedExtensions
  {
    var f := stem + "." + ext;
    assert f[|stem|] == '.' && f[|stem| + 1..] == ext;
    CutAtLastDot(f, |stem|);
  }

  lemma {:induction false} LowerKeepsDots(s: string)
    ensures ('.' in Lower(s)) <==> ('.' in s)
    ensures LastIndexOf(Lower(s), '.') == LastIndexOf(s, '.')
    decreases |s|
  {
    if |s| > 0 {
      assert Lower(s)[..|s| - 1] == Lower(s[..|s| - 1]);
      LowerKeepsDots(s[..|s| - 1]);
    }
  }

  lemma LowerIdempotent(s: string)
    ensures Lower(Lower(s)) == Lower(s)
  {
  }

  lemma LowerSuffix(s: string, i: nat)
    requires i <= |s|
    ensures Lower(s)[i..] == Lower(s[i..])
  {
  }

  /** Case folding never changes the verdict. */
  lemma {:induction false} AllowedFileIgnoresCase(f: string, g: string)
    requires Lower(f) == Lower(g)
    ensures AllowedFile(f) == AllowedFile(g)
  {
    AllowedFileOfLower(f);
    AllowedFileOfLower(g);
  }

  lemma {:induction false} AllowedFileOfLower(f: string)
    ensures AllowedFile(Lower(f)) == AllowedFile(f)
  {
    LowerKeepsDots(f);
    if '.' in f {
      var i := LastIndexOf(f, '.').value;
      assert RSplitOnce(f, '.')[1] == f[i + 1..];
      assert RSplitOnce(Lower(f), '.')[1] == Lower(f)[i + 1..];
      LowerSuffix(f, i + 1);
      LowerIdempotent(f[i + 1..]);
    }
  }

  /** A name without any dot is rejected before anything is split. */
  lemma NoDotRejected(f: string)
    requires '.' !in f
    ensures !AllowedFile(f)
  {
  }

  /** A trailing dot leaves an empty extension, which is rejected. */
  lemma TrailingDotRejected(stem: string)
    ensures !AllowedFile(stem + ".")
  {
    FinalExtensionDecides(stem, "");
  }

  /** A name that is only a dot and an allowed extension is accepted. */
  lemma LeadingDotAccepted()
    ensures AllowedFile(".png")
  {
    FinalExtensionDecides("", "png");
    assert Lower("png") == "png";
  }

  /** "a.png.exe" is rejected: its final extension is "exe". */
  lemma ExecutableSuffixRejected()
    ensures !AllowedFile("a.png.exe")
  {
    assert "a.png" + "." + "exe" == "a.png.exe";
    FinalExtensionDecides("a.png", "exe");
    var l := Lower("exe");
    assert l[0] == 'e' && l[1] == 'x' && l[2] == 'e';
    assert l !in AllowedExtensions by {
      assert l != "jpg" && l != "jpeg" && l != "png" by { assert l[0] == 'e'; }
    }
  }

  /** "a.exe.png" is accepted: its final extension is "png". */
  lemma ImageSuffixAccepted()
    ensures AllowedFile("a.exe.png")
  {
    assert "a.exe" + "." + "png" == "a.exe.png";
    FinalExtensionDecides("a.exe", "png");
    var l := Lower("png");
    assert l[0] == 'p' && l[1] == 'n' && l[2] == 'g';
    assert l == "png";
  }

  /** "CAT.JPG" is accepted although its extension is upper-case. */
  lemma UpperCaseAccepted()
    ensures AllowedFile("CAT.JPG")
  {
    assert "CAT" + "." + "JPG" == "CAT.JPG";
    FinalExtensionDecides("CAT", "JPG");
    var l := Lower("JPG");
    assert l[0] == 'j' && l[1] == 'p' && l[2] == 'g';
    assert l == "jpg";
  }

  /** "cat.jpg" is accepted. */
  lemma LowerCaseAccepted()
    ensures AllowedFile("cat.jpg")
  {
    assert "cat" + "." + "jpg" == "cat.jpg";
    FinalExtensionDecides("cat", "jpg");
    var l := Lower("jpg");
    assert l[0] == 'j' && l[1] == 'p' && l[2] == 'g';
    assert l == "jpg";
  }
}
