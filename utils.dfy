/** The pure helpers of `Utils.kt`: the digit-only check `isNumber` and the
    file-stem rule inside `Uri.getFileName`. */
module Utils {
  import opened Kotlin
  import opened KotlinText
  import Android

  /** `isNumber`: the whole string matches the regular expression `[0-9]*`.
      Written as the matcher consuming one character at a time. */
  function IsNumber(str: string): (r: bool)
    ensures r <==> AllDigits(str)
  {
    |str| == 0 || (IsDigit(str[0]) && IsNumber(str[1..]))
  }

  /** Kotlin's `split(sep)`: the pieces between occurrences of sep, keeping
      empty pieces, so there is always one more piece than separators. */
  function Split(s: string, sep: char): (pieces: seq<string>)
    ensures |pieces| >= 1
    ensures forall i :: 0 <= i < |pieces| ==> sep !in pieces[i]
    ensures |pieces| == 1 <==> sep !in s
  {
    if |s| == 0 then [""]
    else
      var rest := Split(s[1..], sep);
      if s[0] == sep then [""] + rest
      else [[s[0]] + rest[0]] + rest[1..]
  }

  /** `fastJoinToString(sep)`: the pieces with sep between neighbours. The
      result starts with the first piece, and a separator follows it when
      there is a second. */
  function Join(pieces: seq<string>, sep: char): (r: string)
    ensures |pieces| > 0 ==> |pieces[0]| <= |r| && r[..|pieces[0]|] == pieces[0]
    ensures |pieces| >= 2 ==> |pieces[0]| < |r| && r[|pieces[0]|] == sep
  {
    if |pieces| == 0 then ""
    else if |pieces| == 1 then pieces[0]
    else pieces[0] + [sep] + Join(pieces[1..], sep)
  }

  /** Pieces free of sep join to a string that contains sep exactly when
      there are at least two of them: every separator in the result is one
      that joining put there. */
  lemma {:induction false} JoinSeparators(pieces: seq<string>, sep: char)
    requires forall i :: 0 <= i < |pieces| ==> sep !in pieces[i]
    ensures sep in Join(pieces, sep) <==> |pieces| >= 2
  {
    if |pieces| >= 2 {
      var r := Join(pieces, sep);
      assert r[|pieces[0]|] == sep;
    }
  }

  /** Joining the pieces of a split gives back the original string. */
  lemma {:induction false} JoinSplit(s: string, sep: char)
    ensures Join(Split(s, sep), sep) == s
  {
    if |s| > 0 {
      var tail := s[1..];
      var rest := Split(tail, sep);
      JoinSplit(tail, sep);
      assert s == [s[0]] + tail;
      var pieces := Split(s, sep);
      if s[0] == sep {
        assert pieces == [""] + rest;
        assert pieces[1..] == rest;
        assert Join(pieces, sep) == "" + [sep] + Join(rest, sep);
      } else if |rest| == 1 {
        assert pieces == [[s[0]] + rest[0]];
      } else {
        var head := [s[0]] + rest[0];
        assert pieces == [head] + rest[1..];
        assert pieces[1..] == rest[1..];
        assert Join(pieces, sep) == head + [sep] + Join(rest[1..], sep);
        assert Join(rest, sep) == rest[0] + [sep] + Join(rest[1..], sep);
        assert head + [sep] + Join(rest[1..], sep) == [s[0]] + (rest[0] + [sep] + Join(rest[1..], sep));
      }
    }
  }

  /** Joining all pieces equals joining all but the last, a separator, and the last. */
  lemma {:induction false} JoinSnoc(pieces: seq<string>, sep: char)
    requires |pieces| >= 2
    ensures Join(pieces, sep) == Join(pieces[..|pieces| - 1], sep) + [sep] + pieces[|pieces| - 1]
  {
    if |pieces| > 2 {
      JoinSnoc(pieces[1..], sep);
      assert pieces[1..][..|pieces| - 2] == pieces[..|pieces| - 1][1..];
    }
  }

  /** The stem computed from a display name: split on '.', drop the last
      piece, join the rest with '.'. A name without '.' has the empty stem. */
  function Stem(displayName: string): (stem: string)
    ensures '.' !in displayName ==> stem == ""
  {
    var pieces := Split(displayName, '.');
    Join(pieces[..|pieces| - 1], '.')
  }

  /** The piece after the last '.', which holds no '.'; the whole name when
      it has none. */
  function Extension(displayName: string): (ext: string)
    ensures '.' !in ext
    ensures '.' !in displayName ==> ext == displayName
  {
    var pieces := Split(displayName, '.');
    JoinSplit(displayName, '.');
    pieces[|pieces| - 1]
  }

  /** Round trip: when the name contains '.', the stem, a '.', and the last
      piece give back the name. */
  lemma StemRoundTrip(displayName: string)
    requires '.' in displayName
    ensures Stem(displayName) + "." + Extension(displayName) == displayName
  {
    var pieces := Split(displayName, '.');
    JoinSnoc(pieces, '.');
    JoinSplit(displayName, '.');
  }

  /** Reference definition: the stem is exactly the prefix before the last
      '.' of the name. */
  lemma StemIsPrefixBeforeLastDot(displayName: string)
    requires '.' in displayName
    ensures |Stem(displayName)| < |displayName|
    ensures displayName[..|Stem(displayName)|] == Stem(displayName)
    ensures displayName[|Stem(displayName)|] == '.'
    ensures '.' !in displayName[|Stem(displayName)| + 1..]
  {
    StemRoundTrip(displayName);
    var stem, ext := Stem(displayName), Extension(displayName);
    assert displayName[|stem| + 1..] == ext;
  }

  /** The stem of a name is what precedes its last '.', and the extension
      what follows it. */
  lemma StemOfLastDot(front: string, back: string)
    requires '.' !in back
    ensures Stem(front + "." + back) == front
    ensures Extension(front + "." + back) == back
  {
    var name := front + "." + back;
    assert name[|front|] == '.';
    StemIsPrefixBeforeLastDot(name);
    var stem := Stem(name);
    forall k | |stem| < k < |name|
      ensures name[k] != '.'
    {
      assert name[k] == name[|stem| + 1..][k - |stem| - 1];
    }
    forall k | |front| < k < |name|
      ensures name[k] != '.'
    {
      assert name[k] == back[k - |front| - 1];
    }
    assert |stem| == |front|;
    assert name[..|front|] == front;
    StemRoundTrip(name);
    assert name[|front| + 1..] == back;
  }

  /** The edge cases Kotlin's `split` produces by keeping empty pieces: a
      name with several dots keeps all but the last piece, and a name
      without dots, starting with its only dot or ending in it, gives the
      empty stem, the empty stem and the name without the dot. */
  lemma StemExamples()
    ensures Stem("a.b.pdf") == "a.b"
    ensures Stem("report") == ""
    ensures Stem(".pdf") == ""
    ensures Stem("x.") == "x"
  {
    StemOfLastDot("a.b", "pdf");
    assert "a.b" + "." + "pdf" == "a.b.pdf";
    assert '.' !in "report";
    StemOfLastDot("", "pdf");
    assert "" + "." + "pdf" == ".pdf";
    StemOfLastDot("x", "");
    assert "x" + "." + "" == "x.";
  }

  /** `Uri.getFileName`: the stem of the content resolver's display name, or,
      when the query returns no cursor, the file name of the uri's path. */
  function GetFileName(context: Android.Context): (fileName: string)
    ensures context.displayName.NonNull? && '.' in context.displayName.value ==>
      fileName + "." + Extension(context.displayName.value) == context.displayName.value
    ensures context.displayName.NonNull? && '.' !in context.displayName.value ==> fileName == ""
    ensures context.displayName.Null? ==> fileName == context.pathName
  {
    match context.displayName
    case NonNull(name) =>
      if '.' in name then StemRoundTrip(name); Stem(name) else Stem(name)
    case Null => context.pathName
  }
}
