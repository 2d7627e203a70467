/** The tokens that `std::istream_iterator<std::string>` extracts from a stream
    (main.cpp, `count_words`): leading whitespace is skipped, then bytes are
    read up to the next whitespace byte or the end of the stream. */
module Tokenizer {
  import opened Text

  /** A token as `operator>>` delivers it: non-empty and free of whitespace. */
  predicate IsToken(t: Bytes) {
    |t| > 0 && forall i :: 0 <= i < |t| ==> !IsSpace(t[i])
  }

  /** The length of the run of non-space bytes that `s` starts with. */
  function RunLength(s: Bytes): (n: nat)
    ensures n <= |s|
    ensures forall i :: 0 <= i < n ==> !IsSpace(s[i])
    ensures n < |s| ==> IsSpace(s[n])
  {
    if s == [] || IsSpace(s[0]) then 0 else 1 + RunLength(s[1..])
  }

  /** The whitespace-delimited tokens of `s`, in stream order. */
  function Tokens(s: Bytes): (ts: seq<Bytes>)
    ensures forall i :: 0 <= i < |ts| ==> IsToken(ts[i])
    decreases |s|
  {
    if s == [] then []
    else if IsSpace(s[0]) then Tokens(s[1..])
    else
      var n := RunLength(s);
      [s[..n]] + Tokens(s[n..])
  }

  /** Tokens separated by a single space. */
  function Join(ts: seq<Bytes>): Bytes {
    if ts == [] then []
    else if |ts| == 1 then ts[0]
    else ts[0] + [32] + Join(ts[1..])
  }

  /** The bytes of `s` that are not whitespace, in order. */
  function NonSpace(s: Bytes): (r: Bytes)
    ensures |r| <= |s|
    ensures forall i :: 0 <= i < |r| ==> !IsSpace(r[i])
  {
    if s == [] then []
    else if IsSpace(s[0]) then NonSpace(s[1..])
    else [s[0]] + NonSpace(s[1..])
  }

  /** All tokens laid end to end. */
  function Concat(ts: seq<Bytes>): Bytes {
    if ts == [] then [] else ts[0] + Concat(ts[1..])
  }

  /** A stream of whitespace only (the empty stream included) yields no token. */
  lemma {:induction false} BlankHasNoTokens(s: Bytes)
    requires forall i :: 0 <= i < |s| ==> IsSpace(s[i])
    ensures Tokens(s) == []
  {
    if s != [] {
      BlankHasNoTokens(s[1..]);
    }
  }

  /** A token followed by whitespace or by the end of the stream is read whole. */
  lemma {:induction false} RunLengthOfToken(t: Bytes, rest: Bytes)
    requires IsToken(t)
    requires rest == [] || IsSpace(rest[0])
    ensures RunLength(t + rest) == |t|
    decreases |t|
  {
    if |t| > 1 {
      assert (t + rest)[1..] == t[1..] + rest;
      RunLengthOfToken(t[1..], rest);
    } else {
      assert (t + rest)[1..] == rest;
    }
  }

  /** Round trip: splitting a space-joined list of tokens gives the list back. */
  lemma {:induction false} TokensOfJoin(ts: seq<Bytes>)
    requires forall i :: 0 <= i < |ts| ==> IsToken(ts[i])
    ensures Tokens(Join(ts)) == ts
  {
    if |ts| == 1 {
      var t := ts[0];
      RunLengthOfToken(t, []);
      assert t + [] == t;
      assert t[|t|..] == [];
    } else if |ts| > 1 {
      var t, rest := ts[0], Join(ts[1..]);
      var s := t + [32] + rest;
      assert s == t + ([32] + rest);
      RunLengthOfToken(t, [32] + rest);
      assert s[..|t|] == t;
      assert s[|t|..] == [32] + rest;
      assert ([32] + rest)[1..] == rest;
      TokensOfJoin(ts[1..]);
    }
  }

  lemma {:induction false} NonSpaceConcat(a: Bytes, b: Bytes)
    ensures NonSpace(a + b) == NonSpace(a) + NonSpace(b)
  {
    if a == [] {
      assert a + b == b;
    } else {
      assert (a + b)[0] == a[0];
      assert (a + b)[1..] == a[1..] + b;
      NonSpaceConcat(a[1..], b);
    }
  }

  /** Tokenizing loses no byte but whitespace: the tokens laid end to end are
      exactly the non-space bytes of the stream, in order. */
  lemma {:induction false} TokensKeepNonSpace(s: Bytes)
    ensures Concat(Tokens(s)) == NonSpace(s)
    decreases |s|
  {
    if s == [] {
    } else if IsSpace(s[0]) {
      TokensKeepNonSpace(s[1..]);
    } else {
      var n := RunLength(s);
      assert s == s[..n] + s[n..];
      NonSpaceConcat(s[..n], s[n..]);
      NonSpaceOfToken(s[..n]);
      TokensKeepNonSpace(s[n..]);
      assert Tokens(s) == [s[..n]] + Tokens(s[n..]);
      assert ([s[..n]] + Tokens(s[n..]))[1..] == Tokens(s[n..]);
    }
  }

  lemma {:induction false} NonSpaceOfToken(t: Bytes)
    requires forall i :: 0 <= i < |t| ==> !IsSpace(t[i])
    ensures NonSpace(t) == t
  {
    if t != [] {
      NonSpaceOfToken(t[1..]);
    }
  }
}
