/** Parsing of the comma-delimited recipient configuration (line_notifier.py,
    line 100): the string is split on ',', every piece is stripped of
    whitespace as Python's `str.strip()` does, and blank pieces are dropped. */
module Recipients {

  /** The characters Python's `str.isspace()` accepts, which is the set
      `str.strip()` with no argument removes. */
  predicate IsSpace(c: char) {
    || ('\t' <= c <= '\r')                  // \t \n \v \f \r
    || ('\U{1C}' <= c <= '\U{1F}')          // file, group, record and unit separators
    || c == ' '
    || c == '\U{85}'                        // next line
    || c == '\U{A0}'                        // no-break space
    || c == '\U{1680}'                      // ogham space mark
    || ('\U{2000}' <= c <= '\U{200A}')      // en quad .. hair space
    || c == '\U{2028}' || c == '\U{2029}'   // line and paragraph separators
    || c == '\U{202F}' || c == '\U{205F}'   // narrow no-break, medium mathematical space
    || c == '\U{3000}'                      // ideographic space
  }

  /** Every character is whitespace (the empty string included). */
  predicate Blank(s: string) {
    forall k :: 0 <= k < |s| ==> IsSpace(s[k])
  }

  /** Neither the first nor the last character is whitespace. */
  predicate Stripped(s: string) {
    s == [] || (!IsSpace(s[0]) && !IsSpace(s[|s| - 1]))
  }

  /** `s.lstrip()`. */
  function TrimLeft(s: string): string
  {
    if s != [] && IsSpace(s[0]) then TrimLeft(s[1..]) else s
  }

  /** `s.rstrip()`. */
  function TrimRight(s: string): string
  {
    if s != [] && IsSpace(s[|s| - 1]) then TrimRight(s[..|s| - 1]) else s
  }

  /** `lstrip` keeps the longest suffix that does not start with whitespace:
      what it drops is blank and what it keeps starts with a non-space. */
  lemma {:induction false} TrimLeftShape(s: string)
    ensures |TrimLeft(s)| <= |s| && TrimLeft(s) == s[|s| - |TrimLeft(s)|..]
    ensures Blank(s[..|s| - |TrimLeft(s)|])
    ensures TrimLeft(s) != [] ==> !IsSpace(TrimLeft(s)[0])
    decreases |s|
  {
    if s != [] && IsSpace(s[0]) {
      TrimLeftShape(s[1..]);
      var r := TrimLeft(s[1..]);
      var n := |s| - |r|;
      assert s[n..] == s[1..][n - 1..];
      assert s[..n] == [s[0]] + s[1..][..n - 1];
      BlankCons(s[0], s[1..][..n - 1]);
    }
  }

  /** `rstrip` keeps the longest prefix that does not end with whitespace:
      what it drops is blank and what it keeps ends with a non-space. */
  lemma {:induction false} TrimRightShape(s: string)
    ensures |TrimRight(s)| <= |s| && TrimRight(s) == s[..|TrimRight(s)|]
    ensures Blank(s[|TrimRight(s)|..])
    ensures TrimRight(s) != [] ==> !IsSpace(TrimRight(s)[|TrimRight(s)| - 1])
    decreases |s|
  {
    if s != [] && IsSpace(s[|s| - 1]) {
      var t := s[..|s| - 1];
      TrimRightShape(t);
      var r := TrimRight(t);
      assert s[..|r|] == t[..|r|];
      assert s[|r|..] == t[|r|..] + [s[|s| - 1]];
      BlankConcat(t[|r|..], [s[|s| - 1]]);
    }
  }

  /** `s.strip()`: no whitespace at either end, and empty exactly when `s` is blank. */
  function Strip(s: string): (r: string)
    ensures Stripped(r)
    ensures r == [] <==> Blank(s)
  {
    TrimBothEnds(s);
    TrimRight(TrimLeft(s))
  }

  /** The two trims together leave no whitespace at either end, and leave
      nothing exactly when the string is blank. */
  lemma TrimBothEnds(s: string)
    ensures Stripped(TrimRight(TrimLeft(s)))
    ensures TrimRight(TrimLeft(s)) == [] <==> Blank(s)
  {
    var l := TrimLeft(s);
    var r := TrimRight(l);
    TrimLeftShape(s);
    TrimRightShape(l);
    if r != [] {
      assert r[0] == l[0];
    }
    SliceHalves(s, |s| - |l|);
    SliceHalves(l, |r|);
    BlankConcat(s[..|s| - |l|], l);
    BlankConcat(r, l[|r|..]);
  }

  /** A concatenation is blank exactly when both parts are. */
  lemma BlankConcat(a: string, b: string)
    ensures Blank(a + b) <==> Blank(a) && Blank(b)
  {
    var s := a + b;
    if Blank(s) {
      forall k | 0 <= k < |a| ensures IsSpace(a[k]) {
        assert a[k] == s[k];
      }
      forall k | 0 <= k < |b| ensures IsSpace(b[k]) {
        assert b[k] == s[|a| + k];
      }
    }
    if Blank(a) && Blank(b) {
      forall k | 0 <= k < |s| ensures IsSpace(s[k]) {
        if k < |a| { assert s[k] == a[k]; } else { assert s[k] == b[k - |a|]; }
      }
    }
  }

  /** Whitespace before a part that starts with a non-space is what `lstrip` removes. */
  lemma {:induction false} TrimLeftPadded(pre: string, t: string)
    requires Blank(pre)
    requires t == [] || !IsSpace(t[0])
    ensures TrimLeft(pre + t) == t
    decreases |pre|
  {
    if pre != [] {
      assert (pre + t)[1..] == pre[1..] + t;
      TrimLeftPadded(pre[1..], t);
    } else {
      assert pre + t == t;
    }
  }

  /** Whitespace after a part that ends with a non-space is what `rstrip` removes. */
  lemma {:induction false} TrimRightPadded(t: string, post: string)
    requires Blank(post)
    requires t == [] || !IsSpace(t[|t| - 1])
    ensures TrimRight(t + post) == t
    decreases |post|
  {
    if post != [] {
      assert (t + post)[..|t + post| - 1] == t + post[..|post| - 1];
      TrimRightPadded(t, post[..|post| - 1]);
    } else {
      assert t + post == t;
    }
  }

  /** `strip` returns exactly the core of a string padded with whitespace
      on both sides: it characterises `Strip` independently of its definition. */
  lemma StripPadded(pre: string, core: string, post: string)
    requires Blank(pre) && Blank(post) && Stripped(core)
    ensures Strip(pre + core + post) == core
  {
    if core == [] {
      assert pre + core + post == pre + post;
      BlankConcat(pre, post);
    } else {
      assert pre + core + post == pre + (core + post);
      TrimLeftPadded(pre, core + post);
      TrimRightPadded(core, post);
    }
  }

  /** Every string is its stripped form with whitespace padding around it. */
  lemma StripDecomposes(s: string) returns (pre: string, post: string)
    ensures Blank(pre) && Blank(post)
    ensures s == pre + Strip(s) + post
  {
    var l := TrimLeft(s);
    var r := TrimRight(l);
    TrimLeftShape(s);
    TrimRightShape(l);
    pre := s[..|s| - |l|];
    post := l[|r|..];
    assert Strip(s) == r;
    SliceHalves(s, |s| - |l|);
    SliceHalves(l, |r|);
    ConcatAssoc(pre, r, post);
  }

  /** Concatenation regroups freely. */
  lemma ConcatAssoc<T>(a: seq<T>, b: seq<T>, c: seq<T>)
    ensures a + (b + c) == a + b + c
  {
  }

  /** Cutting a string at `n` and gluing the halves gives it back. */
  lemma SliceHalves(s: string, n: nat)
    requires n <= |s|
    ensures s == s[..n] + s[n..]
  {
  }

  /** Stripping only removes characters, so it cannot introduce one. */
  lemma StripKeepsOut(s: string, c: char)
    requires c !in s
    ensures c !in Strip(s)
  {
    var pre, post := StripDecomposes(s);
  }

  /** A string that is already stripped is its own strip, so `Strip` is idempotent. */
  lemma StripIdempotent(s: string)
    ensures Strip(Strip(s)) == Strip(s)
  {
    var t := Strip(s);
    assert [] + t + [] == t;
    StripPadded([], t, []);
  }

  /** `s.split(sep)`: the maximal separator-free pieces between separators,
      always at least one (`"".split(",") == [""]`). */
  function Split(s: string, sep: char): (pieces: seq<string>)
    ensures |pieces| == Count(s, sep) + 1
    ensures forall i :: 0 <= i < |pieces| ==> sep !in pieces[i]
  {
    if s == [] then [[]]
    else
      var rest := Split(s[1..], sep);
      if s[0] == sep then [[]] + rest
      else [[s[0]] + rest[0]] + rest[1..]
  }

  /** Joining the pieces with the separator gives back the original string. */
  lemma {:induction false} JoinSplit(s: string, sep: char)
    ensures Join(Split(s, sep), sep) == s
    decreases |s|
  {
    if s != [] {
      var rest := Split(s[1..], sep);
      JoinSplit(s[1..], sep);
      HeadTail(s);
      if s[0] == sep {
        var pieces := [[]] + rest;
        assert pieces[1..] == rest;
      } else {
        var pieces := [[s[0]] + rest[0]] + rest[1..];
        assert pieces[1..] == rest[1..];
        if |rest| > 1 {
          assert Join(rest, sep) == rest[0] + [sep] + Join(rest[1..], sep);
        }
      }
    }
  }

  /** The number of occurrences of `c` in `s`. */
  function Count(s: string, c: char): nat {
    if s == [] then 0 else (if s[0] == c then 1 else 0) + Count(s[1..], c)
  }

  /** `sep.join(pieces)`. */
  function Join(pieces: seq<string>, sep: char): string
  {
    if |pieces| == 0 then []
    else if |pieces| == 1 then pieces[0]
    else pieces[0] + [sep] + Join(pieces[1..], sep)
  }

  /** Splitting distributes over a separator: the pieces of `a + sep + b`
      are the pieces of `a` followed by the pieces of `b`, in order. */
  lemma {:induction false} SplitAround(a: string, sep: char, b: string)
    ensures Split(a + [sep] + b, sep) == Split(a, sep) + Split(b, sep)
    decreases |a|
  {
    var s := a + [sep] + b;
    if a == [] {
      assert s == [sep] + b;
      assert s[1..] == b;
    } else {
      assert s[0] == a[0];
      assert s[1..] == a[1..] + [sep] + b;
      SplitAround(a[1..], sep, b);
    }
  }

  /** A separator-free string is a single piece. */
  lemma {:induction false} SplitNoSeparator(s: string, sep: char)
    requires sep !in s
    ensures Split(s, sep) == [s]
  {
    SeparatorFreeCount(s, sep);
    JoinSplit(s, sep);
  }

  /** A string without `c` counts no `c`. */
  lemma {:induction false} SeparatorFreeCount(s: string, c: char)
    requires c !in s
    ensures Count(s, c) == 0
    decreases |s|
  {
    if s != [] {
      assert c !in s[1..];
      SeparatorFreeCount(s[1..], c);
    }
  }

  /** Splitting undoes joining when no piece contains the separator. */
  lemma {:induction false} SplitJoin(pieces: seq<string>, sep: char)
    requires |pieces| >= 1
    requires forall i :: 0 <= i < |pieces| ==> sep !in pieces[i]
    ensures Split(Join(pieces, sep), sep) == pieces
    decreases |pieces|
  {
    SplitNoSeparator(pieces[0], sep);
    if |pieces| > 1 {
      SplitAround(pieces[0], sep, Join(pieces[1..], sep));
      SplitJoin(pieces[1..], sep);
      assert [pieces[0]] + pieces[1..] == pieces;
    }
  }

  /** Strip every piece and keep the non-blank ones, in order
      (the list comprehension's `strip()` and `if strip()`). */
  function Clean(pieces: seq<string>): (ids: seq<string>)
    ensures |ids| <= |pieces|
    ensures forall j :: 0 <= j < |ids| ==> ids[j] != [] && Stripped(ids[j])
  {
    if pieces == [] then []
    else
      var id := Strip(pieces[0]);
      if id == [] then Clean(pieces[1..]) else [id] + Clean(pieces[1..])
  }

  /** Cleaning works piecewise, so it keeps the pieces' order. */
  lemma {:induction false} CleanAppend(a: seq<string>, b: seq<string>)
    ensures Clean(a + b) == Clean(a) + Clean(b)
    decreases |a|
  {
    if a == [] {
      assert a + b == b;
    } else {
      assert (a + b)[0] == a[0];
      assert (a + b)[1..] == a[1..] + b;
      CleanAppend(a[1..], b);
    }
  }

  /** Some piece strips to `id`. */
  predicate StripsTo(pieces: seq<string>, id: string) {
    exists i :: 0 <= i < |pieces| && Strip(pieces[i]) == id
  }

  /** An identifier is kept exactly when it is the non-blank strip of some piece. */
  lemma {:induction false} CleanMembers(pieces: seq<string>, id: string)
    ensures id in Clean(pieces) <==> id != [] && StripsTo(pieces, id)
    decreases |pieces|
  {
    if pieces != [] {
      CleanMembers(pieces[1..], id);
      StripsToCons(pieces, id);
    }
  }

  /** Some piece strips to `id` exactly when the first one does or one of the rest does. */
  lemma StripsToCons(pieces: seq<string>, id: string)
    requires pieces != []
    ensures StripsTo(pieces, id) <==> Strip(pieces[0]) == id || StripsTo(pieces[1..], id)
  {
    var tail := pieces[1..];
    if StripsTo(tail, id) {
      var i :| 0 <= i < |tail| && Strip(tail[i]) == id;
      assert tail[i] == pieces[i + 1];
    }
    if StripsTo(pieces, id) {
      var i :| 0 <= i < |pieces| && Strip(pieces[i]) == id;
      if i > 0 {
        assert tail[i - 1] == pieces[i];
      }
    }
  }

  /** What a parsed identifier looks like: non-empty, no surrounding
      whitespace, no comma. */
  predicate IsRecipientId(id: string) {
    id != [] && Stripped(id) && ',' !in id
  }

  /** The recipient list configured by `s` (line_notifier.py, line 100). */
  function ParseRecipients(s: string): (ids: seq<string>)
    ensures |ids| <= Count(s, ',') + 1
  {
    Clean(Split(s, ','))
  }

  /** Every parsed identifier is non-empty, has no surrounding whitespace
      and contains no comma. */
  lemma ParsedIdsWellFormed(s: string)
    ensures forall j :: 0 <= j < |ParseRecipients(s)| ==> IsRecipientId(ParseRecipients(s)[j])
  {
    var pieces := Split(s, ',');
    var ids := Clean(pieces);
    forall j | 0 <= j < |ids| ensures ',' !in ids[j] {
      CleanMembers(pieces, ids[j]);
      var i :| 0 <= i < |pieces| && Strip(pieces[i]) == ids[j];
      StripKeepsOut(pieces[i], ',');
    }
  }

  /** Every character is a comma or whitespace. */
  predicate OnlyCommasAndSpaces(s: string) {
    forall k :: 0 <= k < |s| ==> s[k] == ',' || IsSpace(s[k])
  }

  /** Recipient lists concatenate: the identifiers of `a + "," + b` are those
      of `a` followed by those of `b`. */
  lemma ParseAround(a: string, b: string)
    ensures ParseRecipients(a + [','] + b) == ParseRecipients(a) + ParseRecipients(b)
  {
    SplitAround(a, ',', b);
    CleanAppend(Split(a, ','), Split(b, ','));
  }

  /** A blank configuration, or one made only of commas and whitespace,
      yields no recipient; any other character yields at least one. */
  lemma {:induction false} ParseEmptyIff(s: string)
    ensures ParseRecipients(s) == [] <==> OnlyCommasAndSpaces(s)
    decreases |s|
  {
    if s != [] {
      var c, rest := s[0], s[1..];
      HeadTail(s);
      OnlyCommasAndSpacesCons(c, rest);
      ParseEmptyIff(rest);
      if c == ',' {
        ParseCommaCons(rest);
      } else {
        ParseEmptyCons(c, rest);
      }
    }
  }

  /** A leading comma only contributes an empty piece. */
  lemma ParseCommaCons(rest: string)
    ensures ParseRecipients([','] + rest) == ParseRecipients(rest)
  {
    var s := [','] + rest;
    assert s[1..] == rest;
    assert Split(s, ',') == [[]] + Split(rest, ',');
    assert ([[]] + Split(rest, ','))[1..] == Split(rest, ',');
  }

  /** A leading non-comma character leaves the list empty only if it is whitespace. */
  lemma ParseEmptyCons(c: char, rest: string)
    requires c != ','
    ensures ParseRecipients([c] + rest) == [] <==> IsSpace(c) && ParseRecipients(rest) == []
  {
    var tail := Split(rest, ',');
    var head := [c] + tail[0];
    assert ParseRecipients([c] + rest) == Clean([head] + tail[1..]) by {
      SplitCons(c, rest);
    }
    assert ParseRecipients(rest) == Clean([tail[0]] + tail[1..]) by {
      HeadTail(tail);
    }
    CleanConsEmpty(head, tail[1..]);
    CleanConsEmpty(tail[0], tail[1..]);
    BlankCons(c, tail[0]);
  }

  /** A non-separator character joins the first piece of what follows it. */
  lemma SplitCons(c: char, rest: string)
    requires c != ','
    ensures Split([c] + rest, ',') == [[c] + Split(rest, ',')[0]] + Split(rest, ',')[1..]
  {
    assert ([c] + rest)[1..] == rest;
  }

  /** The list built from a piece and further pieces is empty exactly when
      the piece is blank and the further pieces yield nothing. */
  lemma CleanConsEmpty(piece: string, more: seq<string>)
    ensures Clean([piece] + more) == [] <==> Blank(piece) && Clean(more) == []
  {
    assert ([piece] + more)[1..] == more;
  }

  /** A string with one more character in front is blank exactly when that
      character is whitespace and the rest is blank. */
  lemma BlankCons(c: char, t: string)
    ensures Blank([c] + t) <==> IsSpace(c) && Blank(t)
  {
    var s := [c] + t;
    if IsSpace(c) && Blank(t) {
      forall k | 0 <= k < |s| ensures IsSpace(s[k]) {
        if k > 0 { assert s[k] == t[k - 1]; }
      }
    }
    if Blank(s) {
      assert IsSpace(s[0]);
      forall k | 0 <= k < |t| ensures IsSpace(t[k]) {
        assert t[k] == s[k + 1];
      }
    }
  }

  /** The same for strings made only of commas and whitespace. */
  lemma OnlyCommasAndSpacesCons(c: char, t: string)
    ensures OnlyCommasAndSpaces([c] + t) <==> (c == ',' || IsSpace(c)) && OnlyCommasAndSpaces(t)
  {
    var s := [c] + t;
    if OnlyCommasAndSpaces(s) {
      assert s[0] == c;
      forall k | 0 <= k < |t| ensures t[k] == ',' || IsSpace(t[k]) {
        assert t[k] == s[k + 1];
      }
    }
    if (c == ',' || IsSpace(c)) && OnlyCommasAndSpaces(t) {
      forall k | 0 <= k < |s| ensures s[k] == ',' || IsSpace(s[k]) {
        if k > 0 { assert s[k] == t[k - 1]; }
      }
    }
  }

  /** A non-empty sequence is its head followed by its tail. */
  lemma HeadTail<T>(xs: seq<T>)
    requires xs != []
    ensures xs == [xs[0]] + xs[1..]
  {
  }

  /** A non-blank configuration without a comma names exactly one recipient. */
  lemma ParseSingle(s: string)
    requires ',' !in s && !Blank(s)
    ensures ParseRecipients(s) == [Strip(s)]
  {
    SplitNoSeparator(s, ',');
  }

  /** Round trip: joining well-formed identifiers with commas and parsing
      the result gives back the same identifiers in the same order. */
  lemma {:induction false} ParseJoin(ids: seq<string>)
    requires forall j :: 0 <= j < |ids| ==> IsRecipientId(ids[j])
    ensures ParseRecipients(Join(ids, ',')) == ids
    decreases |ids|
  {
    if ids != [] {
      ParseOne(ids[0]);
      if |ids| > 1 {
        var rest := Join(ids[1..], ',');
        assert Join(ids, ',') == ids[0] + [','] + rest;
        ParseAround(ids[0], rest);
        ParseJoin(ids[1..]);
        HeadTail(ids);
      }
    }
  }

  /** A well-formed identifier on its own parses to itself. */
  lemma ParseOne(id: string)
    requires IsRecipientId(id)
    ensures ParseRecipients(id) == [id]
  {
    SplitNoSeparator(id, ',');
    assert [] + id + [] == id;
    StripPadded([], id, []);
  }
}
