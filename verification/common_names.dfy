/** The common-names field of the add form: the text is split on commas and every piece is
    trimmed, as `value.split(",").map((name) => name.trim())` does. */
module CommonNames {

  /** The code points `String.prototype.trim` removes: the WhiteSpace and LineTerminator
      characters of ECMAScript (tab, line feed, vertical tab, form feed, carriage return, space,
      no-break space, the Unicode space separators, line and paragraph separator, and the byte
      order mark). */
  predicate IsWhitespace(c: char) {
    || c == '\t' || c == '\n' || c == '\U{000B}' || c == '\U{000C}' || c == '\r' || c == ' '
    || c == '\U{00A0}' || c == '\U{1680}' || ('\U{2000}' <= c <= '\U{200A}')
    || c == '\U{2028}' || c == '\U{2029}' || c == '\U{202F}' || c == '\U{205F}'
    || c == '\U{3000}' || c == '\U{FEFF}'
  }

  predicate AllWhitespace(s: string) {
    forall k | 0 <= k < |s| :: IsWhitespace(s[k])
  }

  /** The number of times `c` occurs in `s`. */
  function Occurrences(s: string, c: char): nat {
    if |s| == 0 then 0 else (if s[0] == c then 1 else 0) + Occurrences(s[1..], c)
  }

  /** `s.split(sep)` for a one-character separator: the maximal separator-free pieces between
      separators, including empty pieces, so there is always one piece more than separators. */
  function Split(s: string, sep: char): (parts: seq<string>)
    ensures |parts| == Occurrences(s, sep) + 1
    ensures forall i | 0 <= i < |parts| :: sep !in parts[i]
  {
    if |s| == 0 then [""]
    else
      var rest := Split(s[1..], sep);
      if s[0] == sep then [""] + rest
      else [[s[0]] + rest[0]] + rest[1..]
  }

  /** `parts.join(sep)`: the inverse of `Split`. */
  function Join(parts: seq<string>, sep: char): string {
    if |parts| == 0 then ""
    else if |parts| == 1 then parts[0]
    else parts[0] + [sep] + Join(parts[1..], sep)
  }

  lemma {:induction false} JoinSplit(s: string, sep: char)
    ensures Join(Split(s, sep), sep) == s
    decreases |s|
  {
    if |s| > 0 {
      var rest := Split(s[1..], sep);
      JoinSplit(s[1..], sep);
      if s[0] == sep {
        assert Split(s, sep) == [""] + rest;
        assert ([""] + rest)[1..] == rest;
        assert s == "" + [sep] + s[1..];
      } else if |rest| == 1 {
        assert Split(s, sep) == [[s[0]] + rest[0]];
        assert s == [s[0]] + s[1..];
      } else {
        var parts := Split(s, sep);
        assert parts == [[s[0]] + rest[0]] + rest[1..];
        assert parts[1..] == rest[1..];
        assert Join(rest, sep) == rest[0] + [sep] + Join(rest[1..], sep);
        assert s == [s[0]] + s[1..];
      }
    }
  }

  /** Splitting a separator-free piece followed by a separator peels that piece off. */
  lemma {:induction false} SplitPeel(p: string, sep: char, t: string)
    requires sep !in p
    ensures Split(p + [sep] + t, sep) == [p] + Split(t, sep)
    decreases |p|
  {
    if |p| == 0 {
      assert p + [sep] + t == [sep] + t;
      assert ([sep] + t)[1..] == t;
    } else {
      SplitPeel(p[1..], sep, t);
      assert (p + [sep] + t)[1..] == p[1..] + [sep] + t;
      assert [p[0]] + p[1..] == p;
    }
  }

  /** A separator-free string is one piece. */
  lemma {:induction false} SplitWhole(p: string, sep: char)
    requires sep !in p
    ensures Split(p, sep) == [p]
    decreases |p|
  {
    if |p| > 0 {
      SplitWhole(p[1..], sep);
      assert [p[0]] + p[1..] == p;
    }
  }

  /** Joining separator-free pieces and splitting again gives the pieces back. */
  lemma {:induction false} SplitJoin(parts: seq<string>, sep: char)
    requires |parts| > 0
    requires forall i | 0 <= i < |parts| :: sep !in parts[i]
    ensures Split(Join(parts, sep), sep) == parts
    decreases |parts|
  {
    if |parts| == 1 {
      SplitWhole(parts[0], sep);
    } else {
      SplitJoin(parts[1..], sep);
      SplitPeel(parts[0], sep, Join(parts[1..], sep));
      assert [parts[0]] + parts[1..] == parts;
    }
  }

  /** `s.trimStart()`. */
  function TrimStart(s: string): (r: string)
    ensures |r| <= |s| && r == s[|s| - |r|..]
    ensures AllWhitespace(s[..|s| - |r|])
    ensures |r| == 0 || !IsWhitespace(r[0])
  {
    if |s| > 0 && IsWhitespace(s[0]) then TrimStart(s[1..]) else s
  }

  /** `s.trimEnd()`. */
  function TrimEnd(s: string): (r: string)
    ensures |r| <= |s| && r == s[..|r|]
    ensures AllWhitespace(s[|r|..])
    ensures |r| == 0 || !IsWhitespace(r[|r| - 1])
  {
    if |s| > 0 && IsWhitespace(s[|s| - 1]) then TrimEnd(s[..|s| - 1]) else s
  }

  /** `r` sits at offset `i` of `s` with only whitespace before and after it. */
  ghost predicate PaddedAt(s: string, r: string, i: int) {
    && 0 <= i <= |s| - |r|
    && s[i..i + |r|] == r
    && AllWhitespace(s[..i])
    && AllWhitespace(s[i + |r|..])
  }

  /** `s` is `r` with whitespace added before and after it. */
  ghost predicate Padded(s: string, r: string) {
    exists i :: PaddedAt(s, r, i)
  }

  /** `s.trim()`: `s` is the result with whitespace only before and after it, and the result
      neither starts nor ends with whitespace. */
  function Trim(s: string): (r: string)
    ensures |r| == 0 || (!IsWhitespace(r[0]) && !IsWhitespace(r[|r| - 1]))
    ensures Padded(s, r)
  {
    var t := TrimStart(s);
    var r := TrimEnd(t);
    TrimPads(s, t, r);
    assert |r| > 0 ==> r[0] == t[0];
    r
  }

  /** Whitespace stripped from the front and then from the back leaves the kept part padded. */
  lemma TrimPads(s: string, t: string, r: string)
    requires |t| <= |s| && t == s[|s| - |t|..] && AllWhitespace(s[..|s| - |t|])
    requires |r| <= |t| && r == t[..|r|] && AllWhitespace(t[|r|..])
    ensures PaddedAt(s, r, |s| - |t|)
  {
    var i := |s| - |t|;
    assert s[i..i + |r|] == t[..|r|];
    assert s[i + |r|..] == t[|r|..];
  }

  /** Trimming only removes characters, so a character absent from `s` is absent from the result. */
  lemma {:induction false} TrimAddsNothing(s: string, c: char)
    requires c !in s
    ensures c !in Trim(s)
  {
    var t := TrimStart(s);
    assert t == s[|s| - |t|..];
    assert Trim(s) == t[..|Trim(s)|];
  }

  /** The common names the add form sends: one trimmed name per comma-separated piece. */
  function ParseCommonNames(s: string): (names: seq<string>)
    ensures |names| == Occurrences(s, ',') + 1
    ensures forall i | 0 <= i < |names| :: names[i] == Trim(Split(s, ',')[i])
    ensures forall i | 0 <= i < |names| :: ',' !in names[i]
    ensures forall i | 0 <= i < |names| ::
      |names[i]| == 0 || (!IsWhitespace(names[i][0]) && !IsWhitespace(names[i][|names[i]| - 1]))
  {
    var parts := Split(s, ',');
    assert forall i | 0 <= i < |parts| :: ',' !in Trim(parts[i]) by {
      forall i | 0 <= i < |parts|
        ensures ',' !in Trim(parts[i])
      {
        TrimAddsNothing(parts[i], ',');
      }
    }
    seq(|parts|, i requires 0 <= i < |parts| => Trim(parts[i]))
  }

  /** A string that neither starts nor ends with whitespace is its own trim; in particular
      trimming is idempotent. */
  lemma {:induction false} TrimKeepsTrimmed(s: string)
    requires |s| == 0 || (!IsWhitespace(s[0]) && !IsWhitespace(s[|s| - 1]))
    ensures Trim(s) == s
  {
    TrimStartKeeps(s);
    TrimEndKeeps(s);
  }

  lemma {:induction false} TrimStartKeeps(s: string)
    requires |s| == 0 || !IsWhitespace(s[0])
    ensures TrimStart(s) == s
  {
  }

  lemma {:induction false} TrimEndKeeps(s: string)
    requires |s| == 0 || !IsWhitespace(s[|s| - 1])
    ensures TrimEnd(s) == s
  {
  }

  lemma {:induction false} TrimIdempotent(s: string)
    ensures Trim(Trim(s)) == Trim(s)
  {
    TrimKeepsTrimmed(Trim(s));
  }

  /** A blank string trims to the empty string. */
  lemma {:induction false} TrimBlank(s: string)
    requires AllWhitespace(s)
    ensures TrimStart(s) == "" && Trim(s) == ""
    decreases |s|
  {
    if |s| > 0 {
      assert AllWhitespace(s[1..]);
      TrimBlank(s[1..]);
    }
  }

  /** Parsing undoes joining names with commas, provided no name holds a comma or starts or
      ends with whitespace. */
  lemma {:induction false} ParseJoin(names: seq<string>)
    requires |names| > 0
    requires forall i | 0 <= i < |names| :: ',' !in names[i]
    requires forall i | 0 <= i < |names| ::
      |names[i]| == 0 || (!IsWhitespace(names[i][0]) && !IsWhitespace(names[i][|names[i]| - 1]))
    ensures ParseCommonNames(Join(names, ',')) == names
  {
    var parsed := ParseCommonNames(Join(names, ','));
    SplitJoin(names, ',');
    forall i | 0 <= i < |names|
      ensures parsed[i] == names[i]
    {
      TrimKeepsTrimmed(names[i]);
    }
  }

  /** Only the whole field must be non-empty: an empty piece between two commas survives. */
  lemma EmptyPieceIsKept()
    ensures ParseCommonNames("a,,b") == ["a", "", "b"]
  {
    var names := ["a", "", "b"];
    assert names[1..] == ["", "b"];
    assert names[1..][1..] == ["b"];
    assert Join(names, ',') == "a,,b";
    ParseJoin(names);
  }

  /** A field holding only blanks and a comma parses to two empty names. */
  lemma BlankPiecesTrimToEmpty()
    ensures ParseCommonNames(" , ") == ["", ""]
  {
    var parts := [" ", " "];
    assert parts[1..] == [" "];
    assert Join(parts, ',') == " , ";
    SplitJoin(parts, ',');
    TrimBlank(" ");
  }
}
