/**
 * The string operations the task dialogs rely on: JavaScript's `trim`, `split(",")`
 * and `join`, with the tag parsing built from them.
 */
module Text {

  /**
   * The characters `String.prototype.trim` strips: white space and line terminators.
   * Proofs below only use that a space is white space and a comma is not.
   */
  predicate IsWhitespace(c: char) {
    || c == ' ' || c == '\t' || c == '\n' || c == '\r'
    || c == '\U{000B}' || c == '\U{000C}' || c == '\U{00A0}' || c == '\U{1680}'
    || ('\U{2000}' <= c <= '\U{200A}')
    || c == '\U{2028}' || c == '\U{2029}' || c == '\U{202F}' || c == '\U{205F}'
    || c == '\U{3000}' || c == '\U{FEFF}'
  }

  predicate AllWhitespace(s: string) {
    forall i :: 0 <= i < |s| ==> IsWhitespace(s[i])
  }

  /** No white space at either end. */
  predicate IsTrimmed(s: string) {
    s == [] || (!IsWhitespace(s[0]) && !IsWhitespace(s[|s| - 1]))
  }

  /** From `k` on, the index of the first character that is not white space (or `|s|`). */
  function SkipStart(s: string, k: nat): (i: nat)
    requires k <= |s|
    ensures k <= i <= |s|
    ensures forall m :: k <= m < i ==> IsWhitespace(s[m])
    ensures i < |s| ==> !IsWhitespace(s[i])
    decreases |s| - k
  {
    if k < |s| && IsWhitespace(s[k]) then SkipStart(s, k + 1) else k
  }

  /** Down from `j` but not below `i`, the end of the last character that is not white space. */
  function SkipEnd(s: string, i: nat, j: nat): (e: nat)
    requires i <= j <= |s|
    ensures i <= e <= j
    ensures forall m :: e <= m < j ==> IsWhitespace(s[m])
    ensures e > i ==> !IsWhitespace(s[e - 1])
    decreases j - i
  {
    if j > i && IsWhitespace(s[j - 1]) then SkipEnd(s, i, j - 1) else j
  }

  /** Characters of a slice come from the sequence it is cut from. */
  lemma SliceChars(s: string, i: nat, j: nat)
    requires i <= j <= |s|
    ensures forall c :: c in s[i..j] ==> c in s
  {
    forall c | c in s[i..j] ensures c in s {
      var k :| 0 <= k < j - i && s[i..j][k] == c;
      assert s[i + k] == c;
    }
  }

  /** `s.trim()`: `s` without its leading and trailing white space. */
  function Trim(s: string): (r: string)
    ensures IsTrimmed(r)
    ensures |r| <= |s|
    ensures r == [] <==> AllWhitespace(s)
    ensures IsTrimmed(s) ==> r == s
  {
    var i := SkipStart(s, 0);
    var j := SkipEnd(s, i, |s|);
    assert i < j ==> s[i..j][0] == s[i] && s[i..j][j - i - 1] == s[j - 1];
    assert i < |s| ==> !AllWhitespace(s);
    s[i..j]
  }

  /** `s.trim()` is `s` with its leading and trailing white space cut off. */
  lemma TrimIsInfix(s: string)
    ensures exists i, j :: 0 <= i <= j <= |s| && Trim(s) == s[i..j] && AllWhitespace(s[..i]) && AllWhitespace(s[j..])
  {
    var i := SkipStart(s, 0);
    var j := SkipEnd(s, i, |s|);
    assert Trim(s) == s[i..j];
    forall m | 0 <= m < i ensures IsWhitespace(s[..i][m]) {
      assert s[..i][m] == s[m];
    }
    forall m | 0 <= m < |s| - j ensures IsWhitespace(s[j..][m]) {
      assert s[j..][m] == s[j + m];
    }
  }

  /** Trimming only removes characters. */
  lemma TrimKeepsChars(s: string)
    ensures forall c :: c in Trim(s) ==> c in s
  {
    var i := SkipStart(s, 0);
    SliceChars(s, i, SkipEnd(s, i, |s|));
  }

  /** Only one visible character can have nothing but white space before it. */
  lemma FirstVisibleUnique(s: string, i: nat, k: nat)
    requires i < |s| && k < |s| && !IsWhitespace(s[i]) && !IsWhitespace(s[k])
    requires AllWhitespace(s[..i]) && AllWhitespace(s[..k])
    ensures i == k
  {
    forall m | 0 <= m < i ensures IsWhitespace(s[m]) {
      assert s[..i][m] == s[m];
    }
    forall m | 0 <= m < k ensures IsWhitespace(s[m]) {
      assert s[..k][m] == s[m];
    }
  }

  /** Only one visible character can have nothing but white space after it. */
  lemma LastVisibleUnique(s: string, j: nat, l: nat)
    requires j < |s| && l < |s| && !IsWhitespace(s[j]) && !IsWhitespace(s[l])
    requires AllWhitespace(s[j + 1..]) && AllWhitespace(s[l + 1..])
    ensures j == l
  {
    forall m | j < m < |s| ensures IsWhitespace(s[m]) {
      assert s[j + 1..][m - j - 1] == s[m];
    }
    forall m | l < m < |s| ensures IsWhitespace(s[m]) {
      assert s[l + 1..][m - l - 1] == s[m];
    }
  }

  /** The ends of a non-empty trimmed infix are visible characters. */
  lemma VisibleEnds(s: string, i: nat, j: nat)
    requires i < j <= |s| && IsTrimmed(s[i..j])
    ensures !IsWhitespace(s[i]) && !IsWhitespace(s[j - 1])
  {
    assert s[i..j][0] == s[i];
    assert s[i..j][j - i - 1] == s[j - 1];
  }

  /** Two non-empty trimmed infixes with only white space around them are the same infix. */
  lemma InfixUnique(s: string, i: nat, j: nat, k: nat, l: nat)
    requires i < j <= |s| && IsTrimmed(s[i..j]) && AllWhitespace(s[..i]) && AllWhitespace(s[j..])
    requires k < l <= |s| && IsTrimmed(s[k..l]) && AllWhitespace(s[..k]) && AllWhitespace(s[l..])
    ensures i == k && j == l
  {
    VisibleEnds(s, i, j);
    VisibleEnds(s, k, l);
    FirstVisibleUnique(s, i, k);
    assert s[j..] == s[j - 1 + 1..] && s[l..] == s[l - 1 + 1..];
    LastVisibleUnique(s, j - 1, l - 1);
  }

  /**
   * And that infix is the only one: a non-empty trimmed infix with only white space around
   * it is what `trim` returns.
   */
  lemma TrimUnique(s: string, i: nat, j: nat)
    requires i < j <= |s| && IsTrimmed(s[i..j])
    requires AllWhitespace(s[..i]) && AllWhitespace(s[j..])
    ensures Trim(s) == s[i..j]
  {
    VisibleEnds(s, i, j);
    assert s[i] == s[..j][i];
    TrimIsInfix(s);
    var k, l :| 0 <= k <= l <= |s| && Trim(s) == s[k..l] && AllWhitespace(s[..k]) && AllWhitespace(s[l..]);
    InfixUnique(s, i, j, k, l);
  }

  /** Scanning from `k + 1` past one more leading character is scanning from `k`, shifted. */
  lemma {:induction false} SkipStartShift(c: char, x: string, k: nat)
    requires k <= |x|
    ensures SkipStart([c] + x, k + 1) == SkipStart(x, k) + 1
    decreases |x| - k
  {
    if k < |x| {
      assert ([c] + x)[k + 1] == x[k];
      if IsWhitespace(x[k]) {
        SkipStartShift(c, x, k + 1);
      }
    }
  }

  /** The same for the scan from the end. */
  lemma {:induction false} SkipEndShift(c: char, x: string, i: nat, j: nat)
    requires i <= j <= |x|
    ensures SkipEnd([c] + x, i + 1, j + 1) == SkipEnd(x, i, j) + 1
    decreases j - i
  {
    if j > i {
      assert ([c] + x)[j] == x[j - 1];
      if IsWhitespace(x[j - 1]) {
        SkipEndShift(c, x, i, j - 1);
      }
    }
  }

  /** A leading space never survives trimming. */
  lemma TrimLeadingSpace(x: string)
    ensures Trim([' '] + x) == Trim(x)
  {
    var s := [' '] + x;
    assert IsWhitespace(s[0]);
    SkipStartShift(' ', x, 0);
    var i := SkipStart(x, 0);
    assert SkipStart(s, 0) == i + 1;
    SkipEndShift(' ', x, i, |x|);
    var j := SkipEnd(x, i, |x|);
    assert SkipEnd(s, i + 1, |s|) == j + 1;
    ConsSlice(' ', x, i, j);
  }

  lemma ConsSlice(c: char, x: string, i: nat, j: nat)
    requires i <= j <= |x|
    ensures ([c] + x)[i + 1..j + 1] == x[i..j]
  {
  }

  /** JavaScript's `!s.trim()`: the string is empty once trimmed. */
  predicate IsBlank(s: string) {
    Trim(s) == []
  }

  /**
   * `s.split(sep)` for a one-character separator: the pieces between separators, in order,
   * including empty ones; the empty string splits into one empty piece.
   */
  function Split(s: string, sep: char): (parts: seq<string>)
    ensures |parts| >= 1
    ensures forall p :: p in parts ==> sep !in p
    ensures |parts| <= |s| + 1
  {
    if |s| == 0 then [""]
    else
      var rest := Split(s[1..], sep);
      if s[0] == sep then [""] + rest
      else [[s[0]] + rest[0]] + rest[1..]
  }

  /** `parts.join(delim)`. */
  function Join(parts: seq<string>, delim: string): string {
    if |parts| == 0 then ""
    else if |parts| == 1 then parts[0]
    else parts[0] + delim + Join(parts[1..], delim)
  }

  /** Splitting and joining back with the same separator restores the input. */
  lemma {:induction false} JoinSplit(s: string, sep: char)
    ensures Join(Split(s, sep), [sep]) == s
    decreases |s|
  {
    if |s| > 0 {
      var rest := Split(s[1..], sep);
      JoinSplit(s[1..], sep);
      if s[0] == sep {
        assert Split(s, sep) == [""] + rest;
        assert (([""] + rest)[1..]) == rest;
        assert s == [sep] + s[1..];
      } else {
        var parts := [[s[0]] + rest[0]] + rest[1..];
        assert Split(s, sep) == parts;
        if |rest| == 1 {
          assert s == [s[0]] + s[1..];
        } else {
          assert parts[1..] == rest[1..];
          assert Join(rest, [sep]) == rest[0] + [sep] + Join(rest[1..], [sep]);
          assert s == [s[0]] + s[1..];
        }
      }
    }
  }

  /** A piece free of the separator splits off exactly at the next separator. */
  lemma {:induction false} SplitAtSeparator(a: string, sep: char, b: string)
    requires sep !in a
    ensures Split(a + [sep] + b, sep) == [a] + Split(b, sep)
    decreases |a|
  {
    if |a| == 0 {
      assert a + [sep] + b == [sep] + b;
      assert ([sep] + b)[1..] == b;
    } else {
      var s := a + [sep] + b;
      assert s[0] == a[0];
      assert s[1..] == a[1..] + [sep] + b;
      SplitAtSeparator(a[1..], sep, b);
      assert [a[0]] + a[1..] == a;
    }
  }

  /** Joining separator-free pieces and splitting again restores the pieces. */
  lemma {:induction false} SplitJoin(parts: seq<string>, sep: char)
    requires |parts| >= 1
    requires forall p :: p in parts ==> sep !in p
    ensures Split(Join(parts, [sep]), sep) == parts
    decreases |parts|
  {
    if |parts| == 1 {
      SplitNoSeparator(parts[0], sep);
    } else {
      SplitJoin(parts[1..], sep);
      SplitAtSeparator(parts[0], sep, Join(parts[1..], [sep]));
    }
  }

  lemma {:induction false} SplitNoSeparator(s: string, sep: char)
    requires sep !in s
    ensures Split(s, sep) == [s]
    decreases |s|
  {
    if |s| > 0 {
      SplitNoSeparator(s[1..], sep);
      assert [s[0]] + s[1..] == s;
    }
  }

  /** Every piece trimmed, in order (`.map((t) => t.trim())`). */
  function TrimAll(pieces: seq<string>): (r: seq<string>)
    ensures |r| == |pieces|
    ensures forall i :: 0 <= i < |r| ==> r[i] == Trim(pieces[i])
  {
    if |pieces| == 0 then [] else [Trim(pieces[0])] + TrimAll(pieces[1..])
  }

  /** The non-empty pieces, in order (`.filter((t) => t.length > 0)`). */
  function NonEmpty(pieces: seq<string>): (r: seq<string>)
    ensures forall t :: t in r ==> t in pieces && t != ""
    ensures forall t :: t in pieces && t != "" ==> t in r
    ensures |r| <= |pieces|
    ensures (forall t :: t in pieces ==> t != "") ==> r == pieces
  {
    if |pieces| == 0 then []
    else if pieces[0] == "" then
      assert pieces[0] in pieces;
      NonEmpty(pieces[1..])
    else
      assert forall t :: t in pieces[1..] ==> t in pieces;
      assert pieces == [pieces[0]] + pieces[1..];
      [pieces[0]] + NonEmpty(pieces[1..])
  }

  /** What the task dialogs accept as a tag: non-empty, trimmed, no comma. */
  predicate IsTag(t: string) {
    t != "" && IsTrimmed(t) && ',' !in t
  }

  /** Trimmed pieces are trimmed and gain no character, so no separator either. */
  lemma TrimAllKeeps(pieces: seq<string>, sep: char)
    requires forall p :: p in pieces ==> sep !in p
    ensures forall t :: t in TrimAll(pieces) ==> sep !in t && IsTrimmed(t)
  {
    var trimmed := TrimAll(pieces);
    forall t | t in trimmed ensures sep !in t && IsTrimmed(t) {
      var i :| 0 <= i < |trimmed| && trimmed[i] == t;
      assert pieces[i] in pieces;
      TrimKeepsChars(pieces[i]);
    }
  }

  /** The tags field parsed: comma-separated pieces, trimmed, empty ones dropped. */
  function ParseTags(s: string): (tags: seq<string>)
    ensures forall t :: t in tags ==> IsTag(t)
    ensures forall t :: t in tags <==> t != "" && t in TrimAll(Split(s, ','))
    ensures |tags| <= |Split(s, ',')|
  {
    TrimAllKeeps(Split(s, ','), ',');
    NonEmpty(TrimAll(Split(s, ',')))
  }

  /** Splitting at a separator splits each side on its own. */
  lemma {:induction false} SplitConcat(a: string, sep: char, b: string)
    ensures Split(a + [sep] + b, sep) == Split(a, sep) + Split(b, sep)
    decreases |a|
  {
    if |a| == 0 {
      assert a + [sep] + b == [sep] + b;
      assert ([sep] + b)[1..] == b;
    } else {
      var s := a + [sep] + b;
      assert s[0] == a[0];
      assert s[1..] == a[1..] + [sep] + b;
      SplitConcat(a[1..], sep, b);
    }
  }

  lemma {:induction false} TrimAllAppend(x: seq<string>, y: seq<string>)
    ensures TrimAll(x + y) == TrimAll(x) + TrimAll(y)
    decreases |x|
  {
    if |x| == 0 {
      assert x + y == y;
    } else {
      assert (x + y)[1..] == x[1..] + y;
      TrimAllAppend(x[1..], y);
    }
  }

  lemma {:induction false} NonEmptyAppend(x: seq<string>, y: seq<string>)
    ensures NonEmpty(x + y) == NonEmpty(x) + NonEmpty(y)
    decreases |x|
  {
    if |x| == 0 {
      assert x + y == y;
    } else {
      assert (x + y)[1..] == x[1..] + y;
      NonEmptyAppend(x[1..], y);
    }
  }

  /**
   * Parsing keeps the field's order: the tags of text around a comma are the tags
   * before it followed by the tags after it.
   */
  lemma ParseTagsConcat(a: string, b: string)
    ensures ParseTags(a + "," + b) == ParseTags(a) + ParseTags(b)
  {
    assert a + "," + b == a + [','] + b;
    SplitConcat(a, ',', b);
    TrimAllAppend(Split(a, ','), Split(b, ','));
    NonEmptyAppend(TrimAll(Split(a, ',')), TrimAll(Split(b, ',')));
  }

  /** A single comma-free field yields its trimmed text, or nothing when blank. */
  lemma ParseSingleTag(s: string)
    requires ',' !in s
    ensures ParseTags(s) == if IsBlank(s) then [] else [Trim(s)]
  {
    SplitNoSeparator(s, ',');
    assert TrimAll([s]) == [Trim(s)];
  }

  /** A space in front of the first piece is trimmed away with it. */
  lemma TrimAllLeadingSpace(ps: seq<string>)
    requires |ps| >= 1
    ensures TrimAll([[' '] + ps[0]] + ps[1..]) == TrimAll(ps)
  {
    var qs := [[' '] + ps[0]] + ps[1..];
    TrimLeadingSpace(ps[0]);
    assert forall i :: 0 < i < |qs| ==> qs[i] == ps[i];
  }

  /** One tag followed by `", "`: the tag is the first trimmed piece, the rest parse on. */
  lemma TrimSplitTagStep(t: string, rest: string)
    requires IsTag(t)
    ensures TrimAll(Split(t + ", " + rest, ',')) == [t] + TrimAll(Split(rest, ','))
  {
    assert t + ", " + rest == t + [','] + ([' '] + rest);
    SplitAtSeparator(t, ',', [' '] + rest);
    var ps := Split(rest, ',');
    assert Split([' '] + rest, ',') == [[' '] + ps[0]] + ps[1..] by {
      assert ([' '] + rest)[1..] == rest;
    }
    TrimAllLeadingSpace(ps);
    var whole := [t] + Split([' '] + rest, ',');
    assert TrimAll(whole) == [Trim(t)] + TrimAll(whole[1..]);
    assert whole[1..] == Split([' '] + rest, ',');
  }

  /** A single tag is its own joined text, and that text parses back to it. */
  lemma TrimSplitOneTag(t: string)
    requires IsTag(t)
    ensures TrimAll(Split(Join([t], ", "), ',')) == [t]
  {
    SplitNoSeparator(t, ',');
    assert TrimAll([t]) == [Trim(t)];
  }

  lemma JoinCons(tags: seq<string>, delim: string)
    requires |tags| >= 2
    ensures Join(tags, delim) == tags[0] + delim + Join(tags[1..], delim)
  {
  }

  /** The inductive step: a tag in front of tags that parse back parses back with them. */
  lemma TrimSplitJoinedCons(tags: seq<string>)
    requires |tags| >= 2 && IsTag(tags[0])
    requires TrimAll(Split(Join(tags[1..], ", "), ',')) == tags[1..]
    ensures TrimAll(Split(Join(tags, ", "), ',')) == tags
  {
    JoinCons(tags, ", ");
    TrimSplitTagStep(tags[0], Join(tags[1..], ", "));
    assert tags == [tags[0]] + tags[1..];
  }

  /** Trimming the pieces of `Join(tags, ", ")` gives the tags back. */
  lemma {:induction false} TrimSplitJoinedTags(tags: seq<string>)
    requires |tags| >= 1
    requires forall i :: 0 <= i < |tags| ==> IsTag(tags[i])
    ensures TrimAll(Split(Join(tags, ", "), ',')) == tags
    decreases |tags|
  {
    if |tags| == 1 {
      TrimSplitOneTag(tags[0]);
      assert tags == [tags[0]];
    } else {
      TrimSplitJoinedTags(tags[1..]);
      TrimSplitJoinedCons(tags);
    }
  }

  /**
   * Round trip of the edit dialog's tags field: tags shown as `join(", ")` and parsed
   * again come back unchanged, provided each is a well-formed tag.
   */
  lemma TagsRoundTrip(tags: seq<string>)
    requires forall t :: t in tags ==> IsTag(t)
    ensures ParseTags(Join(tags, ", ")) == tags
  {
    if |tags| == 0 {
      assert Split("", ',') == [""];
      assert TrimAll([""]) == [""];
    } else {
      TrimSplitJoinedTags(tags);
    }
  }
}
