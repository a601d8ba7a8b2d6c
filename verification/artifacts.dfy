/** Naming of the files a completed task saves: the `i`-th image (0-based)
    with backend file name `f` is written as
    `{task_id}_{base}_{i+1:02d}.{ext}` and published under `/images/`. */
module Artifacts {
  import opened Common
  import opened Backend

  const UrlPrefix: string := "/images/"
  const DefaultExtension: string := "png"

  /** Position of the last occurrence of `c` in `s`. */
  function LastIndexOf(s: string, c: char): (r: Option<nat>)
    ensures r.Some? ==> r.value < |s| && s[r.value] == c && c !in s[r.value + 1..]
    ensures r.None? ==> c !in s
  {
    if s == [] then None
    else if s[|s| - 1] == c then Some(|s| - 1)
    else
      var r := LastIndexOf(s[..|s| - 1], c);
      assert s == s[..|s| - 1] + [s[|s| - 1]];
      assert r.Some? ==> s[r.value + 1..] == s[..|s| - 1][r.value + 1..] + [s[|s| - 1]];
      r
  }

  /** Splits a backend file name at its last dot into stem and extension;
      a name without a dot is all stem, with the extension "png". */
  function SplitName(filename: string): (r: (string, string))
    ensures '.' in filename ==> r.0 + "." + r.1 == filename && '.' !in r.1
    ensures '.' !in filename ==> r.0 == filename && r.1 == DefaultExtension
  {
    match LastIndexOf(filename, '.')
    case None => (filename, DefaultExtension)
    case Some(d) =>
      assert filename == filename[..d] + "." + filename[d + 1..];
      (filename[..d], filename[d + 1..])
  }

  /** The saved file name of the `index`-th image (0-based) of a task. */
  function ArtifactName(taskId: string, filename: string, index: nat): string {
    ArtifactStem(taskId, filename, index) + "." + SplitName(filename).1
  }

  /** The saved name without its extension. */
  function ArtifactStem(taskId: string, filename: string, index: nat): string {
    taskId + "_" + SplitName(filename).0 + "_" + ZeroPad2(index + 1)
  }

  function ArtifactUrl(taskId: string, filename: string, index: nat): string {
    UrlPrefix + ArtifactName(taskId, filename, index)
  }

  /** The result URLs of a completed task: one per image, in the order the
      backend listed the images. */
  function ArtifactUrls(taskId: string, images: seq<Image>): (r: seq<string>)
    ensures |r| == |images|
    ensures forall i :: 0 <= i < |r| ==> r[i] == ArtifactUrl(taskId, images[i].filename, i)
  {
    seq(|images|, i requires 0 <= i < |images| => ArtifactUrl(taskId, images[i].filename, i))
  }

  /** The completion message: "generation finished" with the number of
      images in parentheses. */
  function CompletionMessage(count: nat): string {
    "生成完成 (" + Decimal(count) + "张图片)"
  }

  /** Reads the serial number back out of a saved file name: the digits
      between the last '_' and the last '.'. */
  function SerialOf(name: string): Option<nat> {
    match LastIndexOf(name, '.')
    case None => None
    case Some(d) => SerialOfStem(name[..d])
  }

  function SerialOfStem(stem: string): Option<nat> {
    match LastIndexOf(stem, '_')
    case None => None
    case Some(u) =>
      var digits := stem[u + 1..];
      if AllDigits(digits) then Some(ParseDecimal(digits)) else None
  }

  lemma {:induction false} LastIndexOfAfter(p: string, c: char, q: string)
    requires c !in q
    ensures LastIndexOf(p + [c] + q, c) == Some(|p|)
    decreases |q|
  {
    var s := p + [c] + q;
    if q != [] {
      assert s[..|s| - 1] == p + [c] + q[..|q| - 1];
      assert s[|s| - 1] == q[|q| - 1];
      LastIndexOfAfter(p, c, q[..|q| - 1]);
    }
  }

  /** The saved name splits back into the stem and the image's extension:
      the original extension is preserved, or "png" is supplied. */
  lemma ArtifactNameExtension(taskId: string, filename: string, index: nat)
    ensures SplitName(ArtifactName(taskId, filename, index)).1 == SplitName(filename).1
    ensures SplitName(ArtifactName(taskId, filename, index)).0 == ArtifactStem(taskId, filename, index)
  {
    var ext := SplitName(filename).1;
    var stem := ArtifactStem(taskId, filename, index);
    var name := ArtifactName(taskId, filename, index);
    assert name == stem + ['.'] + ext;
    LastIndexOfAfter(stem, '.', ext);
    assert name[..|stem|] == stem;
    assert name[|stem| + 1..] == ext;
  }

  lemma SerialOfStemRoundTrip(prefix: string, digits: string)
    requires AllDigits(digits)
    ensures SerialOfStem(prefix + ['_'] + digits) == Some(ParseDecimal(digits))
  {
    assert '_' !in digits by {
      forall i | 0 <= i < |digits| ensures digits[i] != '_' {
        assert IsDigit(digits[i]);
      }
    }
    LastIndexOfAfter(prefix, '_', digits);
    assert (prefix + ['_'] + digits)[|prefix| + 1..] == digits;
  }

  /** The serial number of the `index`-th image reads back as `index + 1`. */
  lemma SerialRoundTrip(taskId: string, filename: string, index: nat)
    ensures SerialOf(ArtifactName(taskId, filename, index)) == Some(index + 1)
  {
    var stem := ArtifactStem(taskId, filename, index);
    var name := ArtifactName(taskId, filename, index);
    ArtifactNameExtension(taskId, filename, index);
    LastIndexOfAfter(stem, '.', SplitName(filename).1);
    assert name == stem + ['.'] + SplitName(filename).1;
    assert name[..|stem|] == stem;
    assert SerialOf(name) == SerialOfStem(stem);
    SerialOfStemRoundTrip(taskId + "_" + SplitName(filename).0, ZeroPad2(index + 1));
    assert stem == (taskId + "_" + SplitName(filename).0) + ['_'] + ZeroPad2(index + 1);
    ParseDecimalOfZeroPad2(index + 1);
  }

  /** Two images of one task never share a file name, whatever their
      backend names: the serial number tells them apart. */
  lemma ArtifactNamesDistinct(taskId: string, f: string, g: string, i: nat, j: nat)
    requires i != j
    ensures ArtifactName(taskId, f, i) != ArtifactName(taskId, g, j)
    ensures ArtifactUrl(taskId, f, i) != ArtifactUrl(taskId, g, j)
  {
    var a := ArtifactName(taskId, f, i);
    var b := ArtifactName(taskId, g, j);
    SerialRoundTrip(taskId, f, i);
    SerialRoundTrip(taskId, g, j);
    assert SerialOf(a) != SerialOf(b);
    assert (UrlPrefix + a)[|UrlPrefix|..] == a;
    assert (UrlPrefix + b)[|UrlPrefix|..] == b;
  }

  /** The completion message reports the image count, which reads back. */
  lemma CompletionMessageCount(count: nat)
    ensures var m := CompletionMessage(count);
      && |m| == |Decimal(count)| + 10
      && m[6..6 + |Decimal(count)|] == Decimal(count)
      && ParseDecimal(m[6..6 + |Decimal(count)|]) == count
  {
    ParseDecimalOfDecimal(count);
  }
}
