/**
  Characters, trimming and line splitting: the `normalizeLine` helper and the
  `text.split('\n').map(normalizeLine)` step every extractor starts with.
*/
module Text {

  /** White space as JavaScript's `\s` and `trim()` see it, restricted to ASCII. */
  predicate IsSpace(c: char) {
    c == ' ' || c == '\t' || c == '\n' || c == '\r' || c == '\U{000B}' || c == '\U{000C}'
  }

  predicate AllSpaces(s: string) {
    forall i | 0 <= i < |s| :: IsSpace(s[i])
  }

  /** ASCII lower-casing; two characters match under the `i` flag iff their lower forms agree. */
  function Lower(c: char): (d: char)
    ensures 'A' <= c <= 'Z' ==> 'a' <= d <= 'z'
    ensures !('A' <= c <= 'Z') ==> d == c
  {
    if 'A' <= c <= 'Z' then (c as int + 32) as char else c
  }

  /** `s[a..]` begins with `p`, letters compared without regard to case. */
  predicate MatchesAt(s: string, a: nat, p: string)
    ensures MatchesAt(s, a, p) ==> a + |p| <= |s|
    decreases |p|
  {
    if p == [] then a <= |s| else a < |s| && Lower(s[a]) == Lower(p[0]) && MatchesAt(s, a + 1, p[1..])
  }

  /** Every character of `s[a..b]` is white space. */
  predicate SpacesIn(s: string, a: nat, b: nat)
    requires a <= b <= |s|
  {
    forall k | a <= k < b :: IsSpace(s[k])
  }

  /** The first index at or after `a` that does not hold white space (what a greedy `\s*` at `a` reaches). */
  function SkipSpaces(s: string, a: nat): (b: nat)
    requires a <= |s|
    ensures a <= b <= |s| && SpacesIn(s, a, b)
    ensures b < |s| ==> !IsSpace(s[b])
    decreases |s| - a
  {
    if a < |s| && IsSpace(s[a]) then SkipSpaces(s, a + 1) else a
  }

  /** No white space at either end. */
  predicate IsTrimmed(s: string) {
    s == [] || (!IsSpace(s[0]) && !IsSpace(s[|s| - 1]))
  }

  /** `s` without its leading white space. */
  function TrimStart(s: string): (r: string)
    ensures r == [] || !IsSpace(r[0])
    ensures |r| <= |s|
  {
    if s != [] && IsSpace(s[0]) then TrimStart(s[1..]) else s
  }

  /** `s` without its trailing white space. */
  function TrimEnd(s: string): (r: string)
    ensures r == [] || !IsSpace(r[|r| - 1])
    ensures |r| <= |s| && (r != [] ==> r[0] == s[0])
    ensures s != [] && !IsSpace(s[0]) ==> r != []
  {
    if s != [] && IsSpace(s[|s| - 1]) then TrimEnd(s[..|s| - 1]) else s
  }

  /** JavaScript's `String.prototype.trim`. */
  function Trim(s: string): (r: string)
    ensures IsTrimmed(r)
    ensures |r| <= |s|
  {
    TrimEnd(TrimStart(s))
  }

  /** `line.replace(/\r/g, '')`: every carriage return removed. */
  function StripCR(s: string): (r: string)
    ensures '\r' !in r
    ensures |r| <= |s|
  {
    if s == [] then [] else if s[0] == '\r' then StripCR(s[1..]) else [s[0]] + StripCR(s[1..])
  }

  /** Removing carriage returns keeps every other character, as often as it occurs. */
  lemma {:induction false} StripCRKeeps(s: string)
    ensures forall c | c != '\r' :: multiset(StripCR(s))[c] == multiset(s)[c]
    ensures forall c | c in StripCR(s) :: c in s
  {
    if s != [] {
      StripCRKeeps(s[1..]);
      assert s == [s[0]] + s[1..];
      assert multiset(s) == multiset([s[0]]) + multiset(s[1..]);
      if s[0] != '\r' {
        assert multiset(StripCR(s)) == multiset([s[0]]) + multiset(StripCR(s[1..]));
      }
    }
  }

  /** The model of `normalizeLine` (api/whatsapp-webhook.js:9-11). */
  function NormalizeLine(line: string): (r: string)
    ensures IsNormalized(r)
  {
    TrimChars(StripCR(line));
    Trim(StripCR(line))
  }

  /** A normalised line holds only characters of the original line. */
  lemma NormalizeLineChars(line: string)
    ensures |NormalizeLine(line)| <= |line|
    ensures forall c | c in NormalizeLine(line) :: c in line
  {
    StripCRKeeps(line);
    TrimChars(StripCR(line));
  }

  /** What every normalised line satisfies. */
  predicate IsNormalized(line: string) {
    '\r' !in line && IsTrimmed(line)
  }

  /** `text.split('\n')`: never empty; the pieces hold no newline. */
  function Split(text: string): (pieces: seq<string>)
    ensures |pieces| >= 1
    ensures forall i | 0 <= i < |pieces| :: '\n' !in pieces[i]
    ensures |pieces[0]| <= |text|
  {
    if text == [] then [[]]
    else
      var rest := Split(text[1..]);
      if text[0] == '\n' then [[]] + rest
      else [[text[0]] + rest[0]] + rest[1..]
  }

  /** `pieces.join('\n')`, the inverse of Split. */
  function Join(pieces: seq<string>): string
    requires |pieces| >= 1
  {
    if |pieces| == 1 then pieces[0] else pieces[0] + "\n" + Join(pieces[1..])
  }

  /** The normalised lines every extractor scans. */
  function Lines(text: string): (lines: seq<string>)
    ensures |lines| == |Split(text)|
  {
    var pieces := Split(text);
    seq(|pieces|, i requires 0 <= i < |pieces| => NormalizeLine(pieces[i]))
  }

  /** Every line is normalised and holds no newline. */
  lemma LinesNormalized(text: string)
    ensures forall i | 0 <= i < |Lines(text)| :: IsNormalized(Lines(text)[i]) && '\n' !in Lines(text)[i]
  {
    var pieces := Split(text);
    forall i | 0 <= i < |pieces| ensures '\n' !in NormalizeLine(pieces[i]) {
      NormalizeLineChars(pieces[i]);
    }
  }

  lemma StripCRNoop(s: string)
    requires '\r' !in s
    ensures StripCR(s) == s
  {
    if s != [] {
      StripCRNoop(s[1..]);
    }
  }

  lemma TrimNoop(s: string)
    requires IsTrimmed(s)
    ensures Trim(s) == s
  {
  }

  /** Trimming only removes characters. */
  lemma TrimChars(s: string)
    ensures |Trim(s)| <= |s|
    ensures forall c | c in Trim(s) :: c in s
  {
    TrimStartChars(s);
    TrimEndChars(TrimStart(s));
  }

  lemma {:induction false} TrimStartChars(s: string)
    ensures |TrimStart(s)| <= |s| && forall c | c in TrimStart(s) :: c in s
  {
    if s != [] && IsSpace(s[0]) {
      TrimStartChars(s[1..]);
    }
  }

  lemma {:induction false} TrimEndChars(s: string)
    ensures |TrimEnd(s)| <= |s| && forall c | c in TrimEnd(s) :: c in s
  {
    if s != [] && IsSpace(s[|s| - 1]) {
      TrimEndChars(s[..|s| - 1]);
    }
  }

  /** Trimming leaves nothing exactly when the string is all white space. */
  lemma {:induction false} TrimEmpty(s: string)
    ensures Trim(s) == [] <==> AllSpaces(s)
  {
    TrimStartEmpty(s);
    var t := TrimStart(s);
  }

  lemma {:induction false} TrimStartEmpty(s: string)
    ensures TrimStart(s) == [] <==> AllSpaces(s)
  {
    if s != [] && IsSpace(s[0]) {
      TrimStartEmpty(s[1..]);
      assert AllSpaces(s) <==> AllSpaces(s[1..]) by {
        if AllSpaces(s[1..]) {
          forall i | 0 <= i < |s| ensures IsSpace(s[i]) {
            if i > 0 {
              assert s[i] == s[1..][i - 1];
            }
          }
        }
      }
    }
  }

  /** A normalised line is a fixed point: `normalizeLine` is idempotent. */
  lemma NormalizeLineIdempotent(line: string)
    ensures NormalizeLine(NormalizeLine(line)) == NormalizeLine(line)
  {
    var r := NormalizeLine(line);
    StripCRNoop(r);
    TrimNoop(r);
  }

  /** Carriage returns anywhere in the line make no difference. */
  lemma {:induction false} NormalizeLineIgnoresCR(a: string, b: string)
    ensures NormalizeLine(a + "\r" + b) == NormalizeLine(a + b)
  {
    StripCRIgnoresCR(a, b);
  }

  lemma {:induction false} StripCRIgnoresCR(a: string, b: string)
    ensures StripCR(a + "\r" + b) == StripCR(a + b)
  {
    if a == [] {
      assert (a + "\r" + b)[1..] == b;
      assert a + b == b;
    } else {
      StripCRIgnoresCR(a[1..], b);
      assert (a + "\r" + b)[1..] == a[1..] + "\r" + b;
      assert (a + b)[1..] == a[1..] + b;
    }
  }

  /** Joining the pieces of a split gives back the text. */
  lemma {:induction false} JoinSplit(text: string)
    ensures Join(Split(text)) == text
  {
    if text != [] {
      JoinSplit(text[1..]);
      var rest := Split(text[1..]);
      if text[0] == '\n' {
        assert Split(text)[1..] == rest;
      } else {
        var p := Split(text);
        assert p[0] == [text[0]] + rest[0];
        if |rest| == 1 {
          assert text == [text[0]] + text[1..];
        } else {
          assert p[1..] == rest[1..];
          assert Join(rest) == rest[0] + "\n" + Join(rest[1..]);
          assert text == [text[0]] + text[1..];
        }
      }
    }
  }

  /** Splitting joined newline-free pieces gives the pieces back. */
  lemma {:induction false} SplitJoin(pieces: seq<string>)
    requires |pieces| >= 1
    requires forall i | 0 <= i < |pieces| :: '\n' !in pieces[i]
    ensures Split(Join(pieces)) == pieces
  {
    if |pieces| == 1 {
      SplitNoNewline(pieces[0]);
    } else {
      SplitJoin(pieces[1..]);
      SplitAfterLine(pieces[0], Join(pieces[1..]));
      assert pieces == [pieces[0]] + pieces[1..];
    }
  }

  lemma {:induction false} SplitNoNewline(line: string)
    requires '\n' !in line
    ensures Split(line) == [line]
  {
    if line != [] {
      SplitNoNewline(line[1..]);
      assert line == [line[0]] + line[1..];
    }
  }

  /** A line followed by a newline is the first piece; the rest is split on its own. */
  lemma {:induction false} SplitAfterLine(line: string, rest: string)
    requires '\n' !in line
    ensures Split(line + "\n" + rest) == [line] + Split(rest)
  {
    if line == [] {
      assert ("\n" + rest)[1..] == rest;
    } else {
      SplitAfterLine(line[1..], rest);
      assert (line + "\n" + rest)[1..] == line[1..] + "\n" + rest;
      assert line == [line[0]] + line[1..];
    }
  }

  /** White space in front of an already trimmed string is all that trim removes. */
  lemma {:induction false} TrimAfterSpaces(w: string, s: string)
    requires AllSpaces(w) && IsTrimmed(s)
    ensures Trim(w + s) == s
  {
    TrimStartAfterSpaces(w, s);
  }

  lemma {:induction false} TrimStartAfterSpaces(w: string, s: string)
    requires AllSpaces(w) && (s == [] || !IsSpace(s[0]))
    ensures TrimStart(w + s) == s
  {
    if w == [] {
      assert w + s == s;
    } else {
      assert IsSpace(w[0]);
      assert (w + s)[1..] == w[1..] + s;
      TrimStartAfterSpaces(w[1..], s);
    }
  }

  /** White space after a string that ends in a non-space is all that the trailing trim removes. */
  lemma {:induction false} TrimEndAfter(s: string, w: string)
    requires AllSpaces(w) && (s == [] || !IsSpace(s[|s| - 1]))
    ensures TrimEnd(s + w) == s
    decreases |w|
  {
    if w == [] {
      assert s + w == s;
    } else {
      assert (s + w)[..|s + w| - 1] == s + w[..|w| - 1];
      TrimEndAfter(s, w[..|w| - 1]);
    }
  }

  /** `trim()` removes exactly the white space around a trimmed string, on both sides. */
  lemma TrimAround(w1: string, s: string, w2: string)
    requires AllSpaces(w1) && IsTrimmed(s) && AllSpaces(w2)
    ensures Trim(w1 + s + w2) == s
  {
    if s == [] {
      assert AllSpaces(w1 + s + w2) by {
        forall i | 0 <= i < |w1 + s + w2| ensures IsSpace((w1 + s + w2)[i]) {
          if i >= |w1| {
            assert (w1 + s + w2)[i] == w2[i - |w1|];
          }
        }
      }
      TrimEmpty(w1 + s + w2);
    } else {
      assert w1 + s + w2 == w1 + (s + w2);
      TrimStartAfterSpaces(w1, s + w2);
      TrimEndAfter(s, w2);
    }
  }

  /** A string matches itself wherever it occurs. */
  lemma {:induction false} MatchesAtCopy(s: string, a: nat, p: string)
    requires a + |p| <= |s| && forall k | 0 <= k < |p| :: s[a + k] == p[k]
    ensures MatchesAt(s, a, p)
    decreases |p|
  {
    if p != [] {
      assert s[a + 0] == p[0];
      MatchesAtCopy(s, a + 1, p[1..]);
    }
  }
}
