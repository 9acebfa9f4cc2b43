/**
 * The file-type rule of song creation: the extension of an uploaded audio
 * file is the text after the last '.' of its URL, lower-cased.  Python's
 * `str.split` with a one-character separator is modelled by `Split`, and
 * `str.lower` by `Lower`, restricted to ASCII letters.
 */
module FileType {

  /** `s.split(sep)`: the pieces of `s` between occurrences of `sep`. */
  function Split(s: string, sep: char): (parts: seq<string>)
    ensures |parts| >= 1
    ensures forall i :: 0 <= i < |parts| ==> sep !in parts[i]
    decreases |s|
  {
    if s == [] then [[]]
    else
      var rest := Split(s[1..], sep);
      if s[0] == sep then [[]] + rest
      else [[s[0]] + rest[0]] + rest[1..]
  }

  /** `sep.join(parts)`, the inverse of `Split`. */
  function Join(parts: seq<string>, sep: char): string
    requires |parts| >= 1
    decreases |parts|
  {
    if |parts| == 1 then parts[0] else parts[0] + [sep] + Join(parts[1..], sep)
  }

  /** Joining the pieces with the separator gives back the original text. */
  lemma {:induction false} JoinSplit(s: string, sep: char)
    ensures Join(Split(s, sep), sep) == s
    decreases |s|
  {
    if s != [] {
      var rest := Split(s[1..], sep);
      JoinSplit(s[1..], sep);
      if s[0] != sep {
        assert s == [s[0]] + s[1..];
        if |rest| > 1 {
          assert rest == [rest[0]] + rest[1..];
        }
      }
    }
  }

  /** Text without the separator is one piece. */
  lemma {:induction false} SplitNoSeparator(s: string, sep: char)
    requires sep !in s
    ensures Split(s, sep) == [s]
    decreases |s|
  {
    if s != [] {
      assert sep !in s[1..];
      SplitNoSeparator(s[1..], sep);
      assert s == [s[0]] + s[1..];
    }
  }

  /** A prefix without the separator sticks to the first piece of what follows it. */
  lemma {:induction false} SplitPrefix(p: string, t: string, sep: char)
    requires sep !in p
    ensures Split(p + t, sep) == [p + Split(t, sep)[0]] + Split(t, sep)[1..]
    decreases |p|
  {
    if p != [] {
      var q := p[1..];
      assert (p + t)[0] == p[0] && (p + t)[1..] == q + t;
      assert sep !in q;
      SplitPrefix(q, t, sep);
      var r := Split(q + t, sep);
      assert r[0] == q + Split(t, sep)[0] && r[1..] == Split(t, sep)[1..];
      assert Split(p + t, sep) == [[p[0]] + r[0]] + r[1..];
      assert p == [p[0]] + q;
      assert [p[0]] + (q + Split(t, sep)[0]) == p + Split(t, sep)[0];
    } else {
      var r := Split(t, sep);
      assert p + t == t && p + r[0] == r[0];
      assert r == [r[0]] + r[1..];
    }
  }

  /** Splitting a joined list of separator-free pieces gives the pieces back, so `Split` is the only such decomposition. */
  lemma {:induction false} SplitJoin(parts: seq<string>, sep: char)
    requires |parts| >= 1
    requires forall i :: 0 <= i < |parts| ==> sep !in parts[i]
    ensures Split(Join(parts, sep), sep) == parts
    decreases |parts|
  {
    if |parts| == 1 {
      SplitNoSeparator(parts[0], sep);
    } else {
      var tail := Join(parts[1..], sep);
      SplitJoin(parts[1..], sep);
      assert Join(parts, sep) == parts[0] + ([sep] + tail);
      SplitPrefix(parts[0], [sep] + tail, sep);
      assert ([sep] + tail)[1..] == tail;
      assert Split([sep] + tail, sep) == [[]] + parts[1..];
      assert parts[0] + [] == parts[0];
    }
  }

  /** `s.split('.')[-1]`: the last piece of the text. */
  function LastSegment(s: string): string
  {
    var parts := Split(s, '.');
    parts[|parts| - 1]
  }

  /**
   * The last piece is a suffix of the text without '.', and it is either the
   * whole text or is preceded by a '.'; it is shorter than the text whenever
   * there is more than one piece.
   */
  lemma {:induction false} LastSegmentShape(s: string)
    ensures |LastSegment(s)| <= |s|
    ensures s[|s| - |LastSegment(s)|..] == LastSegment(s)
    ensures '.' !in LastSegment(s)
    ensures |LastSegment(s)| == |s| || s[|s| - |LastSegment(s)| - 1] == '.'
    ensures |Split(s, '.')| > 1 ==> |LastSegment(s)| < |s|
    decreases |s|
  {
    if s != [] {
      var t := s[1..];
      LastSegmentShape(t);
      var rest := Split(t, '.');
      assert s == [s[0]] + t;
      if s[0] == '.' {
        LastAfterDot(s);
      } else if |rest| > 1 {
        LastAfterOther(s);
      } else {
        JoinSplit(t, '.');
        assert LastSegment(s) == s;
      }
    }
  }

  /** Step case of `LastSegmentShape` for text that starts with '.'. */
  lemma LastAfterDot(s: string)
    requires s != [] && s[0] == '.'
    ensures LastSegment(s) == LastSegment(s[1..])
    ensures |Split(s, '.')| > 1
  {
  }

  /** Step case of `LastSegmentShape` for text that starts with another character and splits into several pieces. */
  lemma LastAfterOther(s: string)
    requires s != [] && s[0] != '.' && |Split(s[1..], '.')| > 1
    ensures LastSegment(s) == LastSegment(s[1..])
    ensures |Split(s, '.')| > 1
  {
  }

  /** The last piece is exactly the text after the final '.', or the whole text when there is none. */
  lemma LastSegmentUnique(s: string, e: string)
    requires '.' !in e
    requires s == e || (|s| > |e| && s[|s| - |e|..] == e && s[|s| - |e| - 1] == '.')
    ensures LastSegment(s) == e
  {
    LastSegmentShape(s);
  }

  predicate IsUpper(c: char)
  {
    'A' <= c <= 'Z'
  }

  /** `str.lower` on one character, restricted to ASCII. */
  function LowerChar(c: char): (d: char)
    ensures !IsUpper(d)
    ensures !IsUpper(c) ==> d == c
    ensures IsUpper(c) ==> 'a' <= d <= 'z' && d as int - c as int == 'a' as int - 'A' as int
  {
    if IsUpper(c) then (c as int - 'A' as int + 'a' as int) as char else c
  }

  /** `str.lower`, restricted to ASCII. */
  function Lower(s: string): (r: string)
    ensures |r| == |s|
    ensures forall i :: 0 <= i < |r| ==> !IsUpper(r[i])
    ensures forall i :: 0 <= i < |s| && !IsUpper(s[i]) ==> r[i] == s[i]
    ensures forall i :: 0 <= i < |s| && IsUpper(s[i]) ==> r[i] as int == s[i] as int + ('a' as int - 'A' as int)
  {
    seq(|s|, i requires 0 <= i < |s| => LowerChar(s[i]))
  }

  /** Lower-casing is idempotent. */
  lemma LowerIdempotent(s: string)
    ensures Lower(Lower(s)) == Lower(s)
  {
  }

  /** The file type of an audio file URL: `url.split('.')[-1].lower()`. */
  function Extension(url: string): (ext: string)
    ensures |ext| <= |url|
    ensures '.' !in ext
    ensures forall i :: 0 <= i < |ext| ==> !IsUpper(ext[i])
  {
    LastSegmentShape(url);
    var last := LastSegment(url);
    var ext := Lower(last);
    assert forall i :: 0 <= i < |ext| ==> ext[i] != '.' by {
      forall i | 0 <= i < |ext| ensures ext[i] != '.' {
        assert last[i] != '.';
      }
    }
    ext
  }

  /** A file name `name.ext` has the lower-cased `ext` as its type, whatever dots `name` holds. */
  lemma ExtensionOfFileName(name: string, ext: string)
    requires '.' !in ext
    ensures Extension(name + ['.'] + ext) == Lower(ext)
  {
    var s := name + ['.'] + ext;
    assert s[|s| - |ext|..] == ext;
    LastSegmentUnique(s, ext);
  }

  /** A URL without any '.' is its own type, lower-cased. */
  lemma ExtensionWithoutDot(url: string)
    requires '.' !in url
    ensures Extension(url) == Lower(url)
  {
    LastSegmentUnique(url, url);
  }

  /** The type of a type is itself. */
  lemma ExtensionIdempotent(url: string)
    ensures Extension(Extension(url)) == Extension(url)
  {
    var ext := Extension(url);
    ExtensionWithoutDot(ext);
    LowerIdempotent(LastSegment(url));
  }

  /**
   * Whitelist names are compared as stored: a name holding an upper-case
   * letter is never the type of any URL.
   */
  lemma UpperCaseNameNeverMatches(url: string, name: string, k: nat)
    requires k < |name| && IsUpper(name[k])
    ensures Extension(url) != name
  {
  }
}
