/**
 * Output file naming. A path is the sequence of its components; the output
 * workbook of an input file is named after the input's stem with the
 * extension `.xlsx` and is placed in the output directory.
 */
module Paths {

  /** The index of the last `ch` in `s`, or -1 when `s` holds none. */
  function LastIndexOf(s: string, ch: char): (i: int)
    ensures -1 <= i < |s|
    ensures i >= 0 ==> s[i] == ch
    ensures forall j :: i < j < |s| ==> s[j] != ch
  {
    if |s| == 0 then -1
    else if s[|s| - 1] == ch then |s| - 1
    else LastIndexOf(s[..|s| - 1], ch)
  }

  /** When `b` holds a `ch`, the last `ch` of `a + b` is the last one of `b`. */
  lemma {:induction false} LastIndexOfAppend(a: string, b: string, ch: char)
    requires ch in b
    ensures LastIndexOf(a + b, ch) == |a| + LastIndexOf(b, ch)
  {
    var ab := a + b;
    if b[|b| - 1] != ch {
      var b' := b[..|b| - 1];
      assert ab[..|ab| - 1] == a + b';
      assert ch in b' by {
        var k :| 0 <= k < |b| && b[k] == ch;
        assert b'[k] == ch;
      }
      LastIndexOfAppend(a, b', ch);
    }
  }

  /** The final component of a path; the empty path has the empty name. */
  function Name(path: seq<string>): string {
    if path == [] then "" else path[|path| - 1]
  }

  /**
   * The suffix of a file name: from its last dot to the end, provided that dot
   * is neither the first nor the last character; otherwise empty.
   */
  function Suffix(name: string): (s: string)
    ensures s == "" || (|s| >= 2 && s[0] == '.' && '.' !in s[1..])
  {
    var i := LastIndexOf(name, '.');
    if 0 < i < |name| - 1 then name[i..] else ""
  }

  /** The file name without its suffix. */
  function Stem(name: string): (r: string)
    ensures r + Suffix(name) == name
    ensures name != "" ==> r != ""
    ensures '.' !in name ==> r == name
  {
    var i := LastIndexOf(name, '.');
    if 0 < i < |name| - 1 then name[..i] else name
  }

  const WorkbookExtension: string := ".xlsx"

  /** Where the workbook converted from `csvPath` is written: the output directory, then the stem with `.xlsx`. */
  function OutputPath(csvPath: seq<string>, outDir: seq<string>): (out: seq<string>)
    ensures |out| == |outDir| + 1 && out[..|outDir|] == outDir
    ensures Name(out) == Stem(Name(csvPath)) + WorkbookExtension
  {
    outDir + [Stem(Name(csvPath)) + WorkbookExtension]
  }

  /** In a dot followed by dot-free text, the only dot is the first character. */
  lemma DotFirst(e: string)
    requires '.' !in e
    ensures LastIndexOf("." + e, '.') == 0
  {
    var d := "." + e;
    assert d[0] == '.';
  }

  /**
   * A name `s.e`, with `s` non-empty and a non-empty extension `e` holding no
   * dot, has the suffix `.e` and the stem `s`: `people.csv` has stem `people`,
   * `archive.tar.gz` has stem `archive.tar`.
   */
  lemma {:induction false} StemOfDotted(s: string, e: string)
    requires s != "" && e != "" && '.' !in e
    ensures Suffix(s + "." + e) == "." + e
    ensures Stem(s + "." + e) == s
  {
    var name := s + "." + e;
    assert name == s + ("." + e);
    DotFirst(e);
    LastIndexOfAppend(s, "." + e, '.');
    assert name[|s|..] == "." + e;
    assert name[..|s|] == s;
  }

  /** A name whose only dot is its first character has no suffix: `.bashrc` is its own stem. */
  lemma {:induction false} StemOfHidden(e: string)
    requires '.' !in e
    ensures Suffix("." + e) == ""
    ensures Stem("." + e) == "." + e
  {
    DotFirst(e);
  }

  /** A name ending in a dot has no suffix: `notes.` is its own stem. */
  lemma {:induction false} StemOfTrailingDot(s: string)
    ensures Suffix(s + ".") == ""
    ensures Stem(s + ".") == s + "."
  {
    var name := s + ".";
    assert name[|name| - 1] == '.';
  }

  /**
   * Appending `.xlsx` to a non-empty stem gives a name whose suffix is `.xlsx`
   * and whose stem is that stem again.
   */
  lemma {:induction false} ExtensionRoundTrip(stem: string)
    requires stem != ""
    ensures Suffix(stem + WorkbookExtension) == WorkbookExtension
    ensures Stem(stem + WorkbookExtension) == stem
  {
    assert WorkbookExtension == "." + "xlsx";
    StemOfDotted(stem, "xlsx");
  }

  /**
   * The output of a named input file has the suffix `.xlsx` and the input's
   * stem: converting `people.csv` gives `people.xlsx`, whatever the input's
   * own suffix was.
   */
  lemma OutputName(csvPath: seq<string>, outDir: seq<string>)
    requires Name(csvPath) != ""
    ensures Suffix(Name(OutputPath(csvPath, outDir))) == WorkbookExtension
    ensures Stem(Name(OutputPath(csvPath, outDir))) == Stem(Name(csvPath))
  {
    ExtensionRoundTrip(Stem(Name(csvPath)));
  }
}
