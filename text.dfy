/**
 * The string operations the feed code relies on: Rust's `char::is_whitespace`,
 * `str::trim`, ASCII case folding, `str::split(',')`, and the
 * split / trim / drop-empty chain that turns a raw tag list into tags.
 */
module Text {

  /** Unicode White_Space, the set `char::is_whitespace` (and so `str::trim`) uses. */
  predicate IsWhitespace(c: char) {
    ('\t' <= c <= '\r') || c == ' ' || c == '\U{85}' || c == '\U{A0}' || c == '\U{1680}'
    || ('\U{2000}' <= c <= '\U{200A}') || c == '\U{2028}' || c == '\U{2029}'
    || c == '\U{202F}' || c == '\U{205F}' || c == '\U{3000}'
  }

  /** Every character is whitespace (the empty string included). */
  predicate IsBlank(s: string) {
    forall i :: 0 <= i < |s| ==> IsWhitespace(s[i])
  }

  /** Neither starts nor ends with whitespace: what `trim` leaves behind. */
  predicate Trimmed(s: string) {
    s == [] || (!IsWhitespace(s[0]) && !IsWhitespace(s[|s| - 1]))
  }

  /** `str::trim_start`. */
  function TrimStart(s: string): (r: string)
    ensures |r| <= |s| && r == s[|s| - |r|..]
    ensures IsBlank(s[..|s| - |r|])
    ensures r == [] || !IsWhitespace(r[0])
  {
    if s != [] && IsWhitespace(s[0]) then TrimStart(s[1..]) else s
  }

  /** `str::trim_end`. */
  function TrimEnd(s: string): (r: string)
    ensures |r| <= |s| && r == s[..|r|]
    ensures IsBlank(s[|r|..])
    ensures r == [] || !IsWhitespace(r[|r| - 1])
  {
    if s != [] && IsWhitespace(s[|s| - 1]) then TrimEnd(s[..|s| - 1]) else s
  }

  /**
   * `str::trim`: the infix of `s` left after cutting the whitespace on both
   * sides. It is empty exactly when `s` is blank, it is trimmed, and it is
   * `s` itself when `s` was already trimmed.
   */
  function Trim(s: string): (r: string)
    ensures Trimmed(r)
    ensures r == [] <==> IsBlank(s)
    ensures Trimmed(s) ==> r == s
    ensures exists k :: StripsTo(s, k, r)
    ensures forall c :: c in r ==> c in s
  {
    TrimEmptyIffBlank(s);
    TrimIsStrip(s);
    StripKeepsChars(s, |s| - |TrimStart(s)|, TrimEnd(TrimStart(s)));
    TrimEnd(TrimStart(s))
  }

  /** `r` is `s[k..]` cut to `|r|` characters, and what was cut on either side is blank. */
  predicate StripsTo(s: string, k: int, r: string) {
    0 <= k && k + |r| <= |s| && r == s[k..k + |r|] && IsBlank(s[..k]) && IsBlank(s[k + |r|..])
  }

  lemma TrimIsStrip(s: string)
    ensures StripsTo(s, |s| - |TrimStart(s)|, TrimEnd(TrimStart(s)))
  {
    var t := TrimStart(s);
    var r := TrimEnd(t);
    var k := |s| - |t|;
    SlicesOfSuffix(s, k, |r|);
  }

  lemma SlicesOfSuffix(s: string, k: nat, n: nat)
    requires k + n <= |s|
    ensures s[k..][..n] == s[k..k + n] && s[k..][n..] == s[k + n..]
  {
  }

  lemma StripKeepsChars(s: string, k: int, r: string)
    requires StripsTo(s, k, r)
    ensures forall c :: c in r ==> c in s
  {
    forall c | c in r
      ensures c in s
    {
      var i :| 0 <= i < |r| && r[i] == c;
      assert s[k + i] == c;
    }
  }

  lemma {:induction false} TrimStartOfBlank(s: string)
    requires IsBlank(s)
    ensures TrimStart(s) == []
  {
    if s != [] {
      assert IsBlank(s[1..]) by {
        forall i | 0 <= i < |s| - 1
          ensures IsWhitespace(s[1..][i])
        {
          assert s[1..][i] == s[i + 1];
        }
      }
      TrimStartOfBlank(s[1..]);
    }
  }

  lemma BlankConcat(a: string, b: string)
    requires IsBlank(a) && IsBlank(b)
    ensures IsBlank(a + b)
  {
    forall i | 0 <= i < |a + b|
      ensures IsWhitespace((a + b)[i])
    {
      if i < |a| {
        assert (a + b)[i] == a[i];
      } else {
        assert (a + b)[i] == b[i - |a|];
      }
    }
  }

  lemma TrimEmptyIffBlank(s: string)
    ensures TrimEnd(TrimStart(s)) == [] <==> IsBlank(s)
  {
    var t := TrimStart(s);
    var k := |s| - |t|;
    if IsBlank(s) {
      TrimStartOfBlank(s);
    }
    if TrimEnd(t) == [] {
      assert t[0..] == t;
      assert s == s[..k] + t;
      BlankConcat(s[..k], t);
    }
  }

  /** A lower-case letter for an upper-case ASCII letter, anything else unchanged. */
  function LowerChar(c: char): char {
    if 'A' <= c <= 'Z' then (c as int + 32) as char else c
  }

  /** `str::to_ascii_lowercase`. */
  function AsciiLower(s: string): (r: string)
    ensures |r| == |s|
    ensures forall i :: 0 <= i < |s| ==> r[i] == LowerChar(s[i])
  {
    seq(|s|, i requires 0 <= i < |s| => LowerChar(s[i]))
  }

  /** `str::eq_ignore_ascii_case`: same length, equal after folding ASCII letters. */
  predicate EqIgnoreAsciiCase(a: string, b: string) {
    |a| == |b| && forall i :: 0 <= i < |a| ==> LowerChar(a[i]) == LowerChar(b[i])
  }

  /** Case-insensitive equality is equality of the lower-cased strings. */
  lemma EqIgnoreAsciiCaseIsLowerEq(a: string, b: string)
    ensures EqIgnoreAsciiCase(a, b) <==> AsciiLower(a) == AsciiLower(b)
  {
    if AsciiLower(a) == AsciiLower(b) {
      forall i | 0 <= i < |a| ensures LowerChar(a[i]) == LowerChar(b[i]) {
        assert AsciiLower(a)[i] == AsciiLower(b)[i];
      }
    }
  }

  /** Lower-casing twice is lower-casing once. */
  lemma AsciiLowerIdempotent(s: string)
    ensures AsciiLower(AsciiLower(s)) == AsciiLower(s)
  {
  }

  /** `str::split(sep)`: the pieces between separators; `n` separators give `n + 1` pieces. */
  function Split(s: string, sep: char): (pieces: seq<string>)
    ensures |pieces| >= 1
    ensures forall i :: 0 <= i < |pieces| ==> sep !in pieces[i]
  {
    if s == [] then [""]
    else
      var rest := Split(s[1..], sep);
      if s[0] == sep then [""] + rest
      else [[s[0]] + rest[0]] + rest[1..]
  }

  /** `pieces.join(sep)`. */
  function Join(pieces: seq<string>, sep: char): string {
    if pieces == [] then ""
    else if |pieces| == 1 then pieces[0]
    else pieces[0] + [sep] + Join(pieces[1..], sep)
  }

  /** Joining the pieces of a split with the same separator gives back the string. */
  lemma {:induction false} JoinSplit(s: string, sep: char)
    ensures Join(Split(s, sep), sep) == s
  {
    if s != [] {
      var rest := Split(s[1..], sep);
      JoinSplit(s[1..], sep);
      if s[0] == sep {
        assert Split(s, sep) == [""] + rest;
        assert ([""] + rest)[1..] == rest;
      } else {
        var ps := Split(s, sep);
        assert ps == [[s[0]] + rest[0]] + rest[1..];
        if |rest| == 1 {
          assert rest == [rest[0]];
        } else {
          assert ps[1..] == rest[1..];
          assert Join(rest, sep) == rest[0] + [sep] + Join(rest[1..], sep);
        }
      }
    }
  }

  /** Splitting a separator-free prefix off a string glues it to the first piece. */
  lemma {:induction false} SplitPrefix(p: string, t: string, sep: char)
    requires sep !in p
    ensures Split(p + t, sep) == [p + Split(t, sep)[0]] + Split(t, sep)[1..]
  {
    if p != [] {
      SplitPrefix(p[1..], t, sep);
      assert (p + t)[1..] == p[1..] + t;
      assert (p + t)[0] == p[0];
      assert [p[0]] + (p[1..] + Split(t, sep)[0]) == p + Split(t, sep)[0];
    } else {
      var ts := Split(t, sep);
      assert p + t == t && p + ts[0] == ts[0];
      assert ts == [ts[0]] + ts[1..];
    }
  }

  /** Splitting a join of separator-free pieces gives back the pieces. */
  lemma {:induction false} SplitJoin(pieces: seq<string>, sep: char)
    requires |pieces| >= 1
    requires forall i :: 0 <= i < |pieces| ==> sep !in pieces[i]
    ensures Split(Join(pieces, sep), sep) == pieces
  {
    if |pieces| == 1 {
      SplitPrefix(pieces[0], "", sep);
      assert pieces[0] + "" == pieces[0];
      assert pieces == [pieces[0]];
    } else {
      var rest := Join(pieces[1..], sep);
      SplitJoin(pieces[1..], sep);
      assert Join(pieces, sep) == pieces[0] + ([sep] + rest);
      SplitPrefix(pieces[0], [sep] + rest, sep);
      assert ([sep] + rest)[1..] == rest;
      assert pieces[0] + "" == pieces[0];
      assert pieces == [pieces[0]] + pieces[1..];
    }
  }

  /** What the tag parsers produce: non-empty, trimmed, and free of commas. */
  predicate IsTag(t: string) {
    t != [] && Trimmed(t) && ',' !in t
  }

  /** `map(trim).filter(non-empty)`: the trimmed pieces that are not empty, in order. */
  function TrimmedNonEmpty(pieces: seq<string>): (tags: seq<string>)
    ensures |tags| <= |pieces|
    ensures forall i :: 0 <= i < |tags| ==> tags[i] != [] && Trimmed(tags[i])
    ensures (forall i :: 0 <= i < |pieces| ==> ',' !in pieces[i]) ==>
              forall i :: 0 <= i < |tags| ==> ',' !in tags[i]
  {
    if pieces == [] then []
    else
      var t := Trim(pieces[0]);
      (if t == [] then [] else [t]) + TrimmedNonEmpty(pieces[1..])
  }

  /**
   * `raw.split(',').map(trim).filter(non-empty)`, the tag chain shared by
   * both `parse_tags` functions.
   */
  function SplitTags(raw: string): (tags: seq<string>)
    ensures forall i :: 0 <= i < |tags| ==> IsTag(tags[i])
  {
    TrimmedNonEmpty(Split(raw, ','))
  }

  /** Pieces that are already tags pass through the trim/filter step untouched. */
  lemma {:induction false} TrimmedNonEmptyOfTags(tags: seq<string>)
    requires forall i :: 0 <= i < |tags| ==> IsTag(tags[i])
    ensures TrimmedNonEmpty(tags) == tags
  {
    if tags != [] {
      TrimmedNonEmptyOfTags(tags[1..]);
      assert tags == [tags[0]] + tags[1..];
    }
  }

  /**
   * Round trip: joining tags with commas and parsing the result gives the same
   * tags, same order, same case.
   */
  lemma SplitTagsOfJoin(tags: seq<string>)
    requires forall i :: 0 <= i < |tags| ==> IsTag(tags[i])
    ensures SplitTags(Join(tags, ',')) == tags
  {
    if tags == [] {
      assert Split("", ',') == [""];
      assert Trim("") == "";
    } else {
      SplitJoin(tags, ',');
      TrimmedNonEmptyOfTags(tags);
    }
  }

  /** Every piece is blank. */
  predicate AllBlank(pieces: seq<string>) {
    forall i :: 0 <= i < |pieces| ==> IsBlank(pieces[i])
  }

  /** Only commas and whitespace. */
  predicate OnlyCommasAndBlanks(s: string) {
    forall i :: 0 <= i < |s| ==> s[i] == ',' || IsWhitespace(s[i])
  }

  lemma {:induction false} TrimmedNonEmptyEmpty(pieces: seq<string>)
    ensures TrimmedNonEmpty(pieces) == [] <==> AllBlank(pieces)
  {
    if pieces != [] {
      TrimmedNonEmptyEmpty(pieces[1..]);
      if AllBlank(pieces[1..]) && IsBlank(pieces[0]) {
        forall i | 0 <= i < |pieces| ensures IsBlank(pieces[i]) {
          if i > 0 { assert pieces[i] == pieces[1..][i - 1]; }
        }
      }
      if AllBlank(pieces) {
        assert IsBlank(pieces[0]);
        forall i | 0 <= i < |pieces| - 1 ensures IsBlank(pieces[1..][i]) {
          assert pieces[1..][i] == pieces[i + 1];
        }
      }
    }
  }

  lemma {:induction false} SplitAllBlank(s: string)
    ensures AllBlank(Split(s, ',')) <==> OnlyCommasAndBlanks(s)
  {
    if s != [] {
      var rest := Split(s[1..], ',');
      SplitAllBlank(s[1..]);
      var ps := Split(s, ',');
      assert OnlyCommasAndBlanks(s) <==> (s[0] == ',' || IsWhitespace(s[0])) && OnlyCommasAndBlanks(s[1..]) by {
        if OnlyCommasAndBlanks(s[1..]) && (s[0] == ',' || IsWhitespace(s[0])) {
          forall i | 0 <= i < |s| ensures s[i] == ',' || IsWhitespace(s[i]) {
            if i > 0 { assert s[i] == s[1..][i - 1]; }
          }
        }
      }
      if s[0] == ',' {
        assert ps == [""] + rest;
        assert AllBlank(ps) <==> AllBlank(rest) by {
          if AllBlank(ps) {
            forall i | 0 <= i < |rest| ensures IsBlank(rest[i]) { assert rest[i] == ps[i + 1]; }
          }
        }
      } else {
        var first := [s[0]] + rest[0];
        assert ps == [first] + rest[1..];
        assert IsBlank(first) <==> IsWhitespace(s[0]) && IsBlank(rest[0]) by {
          if IsWhitespace(s[0]) && IsBlank(rest[0]) {
            forall i | 0 <= i < |first| ensures IsWhitespace(first[i]) {
              if i > 0 { assert first[i] == rest[0][i - 1]; }
            }
          }
          if IsBlank(first) {
            assert first[0] == s[0];
            forall i | 0 <= i < |rest[0]| ensures IsWhitespace(rest[0][i]) { assert rest[0][i] == first[i + 1]; }
          }
        }
        assert AllBlank(ps) <==> IsBlank(first) && AllBlank(rest) by {
          if AllBlank(ps) {
            assert IsBlank(ps[0]) && ps[0] == first;
            forall i | 0 <= i < |rest| ensures IsBlank(rest[i]) {
              if i > 0 { assert rest[i] == ps[i]; }
            }
          }
          if IsBlank(first) && AllBlank(rest) {
            forall i | 0 <= i < |ps| ensures IsBlank(ps[i]) {
              if i > 0 { assert ps[i] == rest[i]; }
            }
          }
        }
      }
    }
  }

  /** The tag chain yields nothing exactly when the input is only commas and whitespace. */
  lemma SplitTagsEmptyIff(raw: string)
    ensures SplitTags(raw) == [] <==> OnlyCommasAndBlanks(raw)
  {
    TrimmedNonEmptyEmpty(Split(raw, ','));
    SplitAllBlank(raw);
  }
}
