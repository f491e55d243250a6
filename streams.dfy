/** A `std::stringstream` opened on one line, as the decoders use it: a read
    position and the two state bits that matter (eofbit and failbit), with
    `getline`, `peek` and the `while (getline(ss, piece, delim))` splitting
    loop written out. */
module Streams {
  import opened Wrappers

  datatype Stream = Stream(text: string, pos: nat, eof: bool, fail: bool) {

    predicate Valid() {
      pos <= |text|
    }

    /** `ss.good()`: neither eofbit nor failbit is set. */
    predicate Good() {
      !eof && !fail
    }

    /** What is left to read. */
    function Rest(): string
      requires Valid()
    {
      text[pos..]
    }
  }

  /** `stringstream ss(s)`. */
  function Open(s: string): (st: Stream)
    ensures st.Valid() && st.Good() && st.Rest() == s
  {
    Stream(s, 0, false, false)
  }

  /** The index of the first `c` at or after `i`, or |s| when there is none. */
  function FindFrom(s: string, c: char, i: nat): (k: nat)
    requires i <= |s|
    ensures i <= k <= |s|
    ensures k < |s| ==> s[k] == c
    ensures forall j :: i <= j < k ==> s[j] != c
    decreases |s| - i
  {
    if i == |s| || s[i] == c then i else FindFrom(s, c, i + 1)
  }

  /** `getline(ss, out, delim)`, where `prev` is what `out` held before the
      call. When the stream is not good the sentry fails: failbit is set and
      `out` keeps its old value. Otherwise `out` is cleared and receives the
      characters up to the delimiter, which is consumed; reaching the end
      instead sets eofbit, and failbit too when nothing at all was read. */
  function GetLine(st: Stream, delim: char, prev: string): (r: (Stream, string))
    requires st.Valid()
    ensures r.0.Valid() && r.0.text == st.text && st.pos <= r.0.pos
    ensures !r.0.fail ==> st.pos < r.0.pos
    ensures !st.Good() ==> r.0.fail && r.1 == prev
  {
    if !st.Good() then (st.(fail := true), prev)
    else
      var k := FindFrom(st.text, delim, st.pos);
      if k < |st.text| then
        (st.(pos := k + 1), st.text[st.pos..k])
      else
        (st.(pos := k, eof := true, fail := k == st.pos), st.text[st.pos..])
  }

  /** On a good stream `getline` splits what is left into the piece it
      returns, the delimiter unless the end was reached, and what is left
      after it. */
  lemma GetLineSplits(st: Stream, delim: char, prev: string)
    requires st.Valid() && st.Good()
    ensures var (next, piece) := GetLine(st, delim, prev);
      delim !in piece && st.Rest() == piece + (if next.eof then [] else [delim]) + next.Rest()
  {
    var k := FindFrom(st.text, delim, st.pos);
    if k < |st.text| {
      assert st.text[st.pos..] == st.text[st.pos..k] + [delim] + st.text[k + 1..];
    }
  }

  /** `ss.peek()`: the next character without consuming it, or None for EOF.
      Looking past the end sets eofbit; on a stream that is not good the
      sentry sets failbit and EOF is returned. */
  function Peek(st: Stream): (r: (Stream, Option<char>))
    requires st.Valid()
    ensures r.0.Valid() && r.0.text == st.text && r.0.pos == st.pos
    ensures r.1.Some? <==> st.Good() && st.pos < |st.text|
    ensures r.1.Some? ==> r.0 == st && r.1.value == st.text[st.pos]
  {
    if !st.Good() then (st.(fail := true), None)
    else if st.pos == |st.text| then (st.(eof := true), None)
    else (st, Some(st.text[st.pos]))
  }

  /** The pieces that `while (getline(ss, piece, delim))` visits. */
  function Segments(st: Stream, delim: char): (r: seq<string>)
    requires st.Valid()
    decreases |st.text| - st.pos
  {
    var (next, piece) := GetLine(st, delim, "");
    if next.fail then [] else [piece] + Segments(next, delim)
  }

  /** The pieces joined with `sep` between them, as the encoders write lists. */
  function Join(xs: seq<string>, sep: char): string {
    if xs == [] then "" else if |xs| == 1 then xs[0] else xs[0] + [sep] + Join(xs[1..], sep)
  }

  /** Reading a field that ends at a delimiter returns the field and leaves
      the stream good, just after the delimiter. */
  lemma ReadField(st: Stream, delim: char, prev: string, field: string, rest: string)
    requires st.Valid() && st.Good()
    requires st.Rest() == field + [delim] + rest
    requires delim !in field
    ensures GetLine(st, delim, prev).1 == field
    ensures GetLine(st, delim, prev).0 == st.(pos := st.pos + |field| + 1)
    ensures GetLine(st, delim, prev).0.Rest() == rest
  {
    var k := FindFrom(st.text, delim, st.pos);
    assert st.text[st.pos + |field|] == delim by {
      assert st.Rest()[|field|] == delim;
    }
    assert st.text[st.pos..st.pos + |field|] == field by {
      assert st.Rest()[..|field|] == field;
    }
    assert st.text[st.pos + |field| + 1..] == rest by {
      assert st.Rest()[|field| + 1..] == rest;
    }
  }

  /** Reading the last, non-empty field of a line returns it and sets
      eofbit but not failbit. */
  lemma ReadLastField(st: Stream, delim: char, prev: string, field: string)
    requires st.Valid() && st.Good()
    requires st.Rest() == field && field != []
    requires delim !in field
    ensures GetLine(st, delim, prev).1 == field
    ensures GetLine(st, delim, prev).0 == st.(pos := |st.text|, eof := true)
  {
    assert forall j :: st.pos <= j < |st.text| ==> st.text[j] == field[j - st.pos];
  }

  /** Reading at the very end of the line gives the empty string and sets
      both eofbit and failbit. */
  lemma ReadAtEnd(st: Stream, delim: char, prev: string)
    requires st.Valid() && st.Good()
    requires st.pos == |st.text|
    ensures GetLine(st, delim, prev) == (st.(eof := true, fail := true), "")
  {
    assert st.text[st.pos..] == "";
  }

  /** Reading the first of several joined pieces. */
  lemma ReadJoined(st: Stream, delim: char, prev: string, xs: seq<string>)
    requires st.Valid() && st.Good()
    requires |xs| >= 2 && delim !in xs[0]
    requires st.Rest() == Join(xs, delim)
    ensures GetLine(st, delim, prev) == (st.(pos := st.pos + |xs[0]| + 1), xs[0])
    ensures GetLine(st, delim, prev).0.Rest() == Join(xs[1..], delim)
  {
    ReadField(st, delim, prev, xs[0], Join(xs[1..], delim));
  }

  /** Reading the last of several joined pieces, which ends the line. */
  lemma ReadJoinedLast(st: Stream, delim: char, prev: string, xs: seq<string>)
    requires st.Valid() && st.Good()
    requires |xs| == 1 && delim !in xs[0] && xs[0] != []
    requires st.Rest() == Join(xs, delim)
    ensures GetLine(st, delim, prev) == (st.(pos := |st.text|, eof := true), xs[0])
  {
    ReadLastField(st, delim, prev, xs[0]);
  }

  /** The splitting loop gives back the pieces a list was joined from, as
      long as no piece is empty or holds the separator. */
  lemma {:induction false} SegmentsOfJoin(st: Stream, delim: char, xs: seq<string>)
    requires st.Valid() && st.Good()
    requires xs != []
    requires forall i :: 0 <= i < |xs| ==> xs[i] != [] && delim !in xs[i]
    requires st.Rest() == Join(xs, delim)
    ensures Segments(st, delim) == xs
    decreases |xs|
  {
    if |xs| == 1 {
      ReadLastField(st, delim, "", xs[0]);
      var next := GetLine(st, delim, "").0;
      assert Segments(next, delim) == [] by {
        assert GetLine(next, delim, "").0.fail;
      }
    } else {
      ReadField(st, delim, "", xs[0], Join(xs[1..], delim));
      var next := GetLine(st, delim, "").0;
      SegmentsOfJoin(next, delim, xs[1..]);
      assert xs == [xs[0]] + xs[1..];
    }
  }

  /** Splitting an empty rest visits nothing. */
  lemma SegmentsAtEnd(st: Stream, delim: char)
    requires st.Valid() && st.pos == |st.text|
    ensures Segments(st, delim) == []
  {
  }
}
