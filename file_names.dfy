/** Derivation of the output file names from the selected file's name.

    The source splits the name on '.', drops the last piece and joins the
    rest back with '.' to get the base name, and takes the last piece as the
    extension. String.prototype.split and Array.prototype.join with the
    one-character separator "." are modelled by Split and Join below. */
module FileNames {

  const Dot: char := '.'

  /** The pieces of s between the dots, as s.split('.') returns them: one
      more piece than s has dots, none of them holding a dot. */
  function Split(s: string): (r: seq<string>)
    ensures |r| >= 1
    ensures forall k :: 0 <= k < |r| ==> Dot !in r[k]
  {
    if s == [] then [[]]
    else
      var rest := Split(s[1..]);
      if s[0] == Dot then [[]] + rest
      else [[s[0]] + rest[0]] + rest[1..]
  }

  /** parts.join('.'). Splitting the result gives the parts back when
      there is at least one part and no part holds a dot. */
  function Join(parts: seq<string>): (r: string)
    ensures |parts| >= 1 && (forall k :: 0 <= k < |parts| ==> Dot !in parts[k]) ==> Split(r) == parts
  {
    if |parts| == 0 then []
    else
      SplitNoDot(parts[0]);
      if |parts| == 1 then parts[0]
      else
        var rest := Join(parts[1..]);
        SplitAtDot(parts[0], rest);
        assert parts == [parts[0]] + parts[1..];
        parts[0] + [Dot] + rest
  }

  /** getBaseFileName: every piece but the last, joined back with '.'. It is
      empty for a name without a dot; otherwise the base name, a dot and the
      extension make up the name again. */
  function BaseName(fileName: string): (r: string)
    ensures Dot !in fileName ==> r == ""
    ensures Dot in fileName ==> r + [Dot] + Extension(fileName) == fileName
  {
    var pieces := Split(fileName);
    SplitManyIffDot(fileName);
    JoinSplit(fileName);
    if |pieces| >= 2 then JoinLast(pieces); Join(pieces[..|pieces| - 1])
    else Join(pieces[..|pieces| - 1])
  }

  /** getFileExtension: the last piece (pop of a never-empty array). */
  function Extension(fileName: string): (ext: string)
    ensures Dot !in ext
  {
    var pieces := Split(fileName);
    pieces[|pieces| - 1]
  }

  /** The name an exported copy is downloaded under. For a name with a dot
      it is one character longer than the name and the density together;
      a name without a dot becomes the whole extension after "_", the
      density and a dot. */
  function OutputName(fileName: string, density: string): (r: string)
    ensures Dot in fileName ==> |r| == |fileName| + |density| + 1
    ensures Dot !in fileName ==> r == "_" + density + [Dot] + fileName
  {
    SplitNoDot(fileName);
    BaseName(fileName) + "_" + density + [Dot] + Extension(fileName)
  }

  /** Joining the pieces of a split gives back the string. */
  lemma {:induction false} JoinSplit(s: string)
    ensures Join(Split(s)) == s
  {
    if s != [] {
      JoinSplit(s[1..]);
      var rest := Split(s[1..]);
      if s[0] == Dot {
        assert s == [Dot] + s[1..];
      } else {
        var head := [s[0]] + rest[0];
        if |rest| == 1 {
          assert s == [s[0]] + s[1..];
        } else {
          assert ([head] + rest[1..])[1..] == rest[1..];
          assert rest == [rest[0]] + rest[1..];
          assert Join(rest) == rest[0] + [Dot] + Join(rest[1..]);
          assert s == [s[0]] + s[1..];
        }
      }
    }
  }

  /** Splitting at a dot splits the two sides independently. */
  lemma {:induction false} SplitAtDot(a: string, b: string)
    ensures Split(a + [Dot] + b) == Split(a) + Split(b)
  {
    var s := a + [Dot] + b;
    if a == [] {
      assert s == [Dot] + b;
      assert s[1..] == b;
    } else {
      assert s[0] == a[0];
      assert s[1..] == a[1..] + [Dot] + b;
      SplitAtDot(a[1..], b);
      if a[0] != Dot {
        PrependToFirstPiece(a[0], Split(a[1..]), Split(b));
      }
    }
  }

  /** Growing the first piece commutes with appending more pieces. */
  lemma PrependToFirstPiece(c: char, left: seq<string>, right: seq<string>)
    requires |left| >= 1
    ensures [[c] + (left + right)[0]] + (left + right)[1..]
         == ([[c] + left[0]] + left[1..]) + right
  {
    assert (left + right)[0] == left[0];
    assert (left + right)[1..] == left[1..] + right;
  }

  /** A string without a dot is a single piece. */
  lemma {:induction false} SplitNoDot(s: string)
    ensures Dot !in s ==> Split(s) == [s]
  {
    if s != [] && Dot !in s {
      assert Dot !in s[1..] by {
        forall k | 0 <= k < |s[1..]| ensures s[1..][k] != Dot {
          assert s[1..][k] == s[k + 1];
        }
      }
      SplitNoDot(s[1..]);
      assert s == [s[0]] + s[1..];
    }
  }

  /** A string holds a dot exactly when it splits into two or more pieces. */
  lemma SplitManyIffDot(s: string)
    ensures Dot in s <==> |Split(s)| >= 2
  {
    if Dot in s {
      var k :| 0 <= k < |s| && s[k] == Dot;
      assert s == s[..k] + [Dot] + s[k + 1..];
      SplitAtDot(s[..k], s[k + 1..]);
    } else {
      SplitNoDot(s);
    }
  }

  /** Joining all pieces is joining all but the last, a dot, then the last. */
  lemma {:induction false} JoinLast(parts: seq<string>)
    requires |parts| >= 2
    ensures Join(parts) == Join(parts[..|parts| - 1]) + [Dot] + parts[|parts| - 1]
  {
    if |parts| > 2 {
      JoinLast(parts[1..]);
      assert parts[1..][..|parts| - 2] == parts[..|parts| - 1][1..];
    }
  }

  /** Only the last dot is split off: the base name is everything before it
      and the extension everything after it. */
  lemma SplitAtLastDot(fileName: string, k: nat)
    requires k < |fileName| && fileName[k] == Dot
    requires forall j :: k < j < |fileName| ==> fileName[j] != Dot
    ensures BaseName(fileName) == fileName[..k]
    ensures Extension(fileName) == fileName[k + 1..]
  {
    var before, after := fileName[..k], fileName[k + 1..];
    assert fileName == before + [Dot] + after;
    assert Dot !in after by {
      forall j | 0 <= j < |after| ensures after[j] != Dot {
        assert after[j] == fileName[k + 1 + j];
      }
    }
    SplitAtDot(before, after);
    SplitNoDot(after);
    var pieces := Split(fileName);
    assert pieces[..|pieces| - 1] == Split(before);
    JoinSplit(before);
  }

  /** A name without a dot has an empty base name and is its own
      extension. */
  lemma NoDotName(fileName: string)
    requires Dot !in fileName
    ensures BaseName(fileName) == "" && Extension(fileName) == fileName
  {
    SplitNoDot(fileName);
  }

  /** A name ending in a dot has an empty extension. */
  lemma TrailingDotName(stem: string)
    ensures BaseName(stem + [Dot]) == stem && Extension(stem + [Dot]) == ""
  {
    SplitAtLastDot(stem + [Dot], |stem|);
    assert (stem + [Dot])[..|stem|] == stem;
  }

  /** The output name puts "_" and the density right before the last dot of
      the name. */
  lemma OutputNameWithDot(stem: string, ext: string, density: string)
    requires Dot !in ext
    ensures OutputName(stem + [Dot] + ext, density) == stem + "_" + density + [Dot] + ext
  {
    var n := stem + [Dot] + ext;
    forall j | |stem| < j < |n| ensures n[j] != Dot {
      assert n[j] == ext[j - |stem| - 1];
    }
    SplitAtLastDot(n, |stem|);
    assert n[..|stem|] == stem && n[|stem| + 1..] == ext;
  }

  /** Only the last dot is split off: "a.b.png" has base "a.b" and
      extension "png". */
  lemma NameExampleTwoDots()
    ensures BaseName("a.b.png") == "a.b" && Extension("a.b.png") == "png"
  {
    var n := "a.b.png";
    assert forall j :: 3 < j < |n| ==> n[j] != Dot;
    SplitAtLastDot(n, 3);
    assert n[..3] == "a.b" && n[4..] == "png";
  }

  /** "photo" has an empty base name and is its own extension, so its mdpi
      copy is named "_mdpi.photo". */
  lemma NameExampleNoDot()
    ensures BaseName("photo") == "" && Extension("photo") == "photo"
    ensures OutputName("photo", "mdpi") == "_mdpi.photo"
  {
    assert forall j :: 0 <= j < |"photo"| ==> "photo"[j] != Dot;
    NoDotName("photo");
  }
}
