/** The few JavaScript string and URL primitives the core relies on:
    `String.prototype.split` with a one-character separator, ASCII
    lower-casing, and `URLSearchParams.get`. */
module Text {
  import opened Wrappers

  /** `s.split(sep)`: the pieces between occurrences of `sep`, in order.
      JavaScript returns `[""]` for the empty string and never an empty array. */
  function Split(s: string, sep: char): (pieces: seq<string>)
    ensures |pieces| >= 1
    ensures forall k :: 0 <= k < |pieces| ==> sep !in pieces[k]
  {
    if s == [] then [""]
    else
      var rest := Split(s[1..], sep);
      if s[0] == sep then [""] + rest
      else [[s[0]] + rest[0]] + rest[1..]
  }

  /** `pieces.join(sep)`, the inverse of `Split`. */
  function Join(pieces: seq<string>, sep: char): string
    requires |pieces| >= 1
  {
    if |pieces| == 1 then pieces[0]
    else pieces[0] + [sep] + Join(pieces[1..], sep)
  }

  /** Splitting loses nothing: joining the pieces back gives the original text. */
  lemma {:induction false} JoinSplit(s: string, sep: char)
    ensures Join(Split(s, sep), sep) == s
  {
    if s != [] {
      var rest := Split(s[1..], sep);
      JoinSplit(s[1..], sep);
      if s[0] == sep {
        assert Split(s, sep)[1..] == rest;
      } else {
        var ps := Split(s, sep);
        assert ps[1..] == rest[1..];
        if |rest| > 1 {
          assert Join(rest, sep) == rest[0] + [sep] + Join(rest[1..], sep);
        }
      }
    }
  }

  /** A text that holds no `sep` is exactly the first piece of itself
      followed by `sep` and anything. */
  lemma {:induction false} SplitAtFirst(pre: string, sep: char, post: string)
    requires sep !in pre
    ensures Split(pre + [sep] + post, sep)[0] == pre
  {
    var s := pre + [sep] + post;
    if pre != [] {
      assert s[1..] == pre[1..] + [sep] + post;
      SplitAtFirst(pre[1..], sep, post);
      assert [pre[0]] + pre[1..] == pre;
    }
  }

  /** The last piece of `s.split(sep)` is the text after the last `sep`
      (the whole text when there is none). */
  lemma {:induction false} LastPiece(s: string, sep: char)
    ensures var ps := Split(s, sep); var p := ps[|ps| - 1];
      |p| <= |s| && s[|s| - |p|..] == p && (|p| < |s| ==> s[|s| - |p| - 1] == sep) &&
      (|ps| == 1 <==> p == s)
  {
    if s != [] {
      var rest := Split(s[1..], sep);
      LastPiece(s[1..], sep);
      var ps := Split(s, sep);
      if s[0] == sep {
        assert ps[|ps| - 1] == rest[|rest| - 1];
      } else if |rest| > 1 {
        assert ps[|ps| - 1] == rest[|rest| - 1];
      } else {
        assert [s[0]] + s[1..] == s;
        assert ps == [s];
      }
    }
  }

  /** A text without `sep` splits into itself alone. */
  lemma {:induction false} SplitNoSep(s: string, sep: char)
    requires sep !in s
    ensures Split(s, sep) == [s]
  {
    if s != [] {
      SplitNoSep(s[1..], sep);
      assert [s[0]] + s[1..] == s;
    }
  }

  /** The last piece of a text that ends in `sep` followed by a
      `sep`-free `post` is `post`. */
  lemma {:induction false} SplitAtLast(pre: string, sep: char, post: string)
    requires sep !in post
    ensures var ps := Split(pre + [sep] + post, sep); ps[|ps| - 1] == post
  {
    var s := pre + [sep] + post;
    if pre == [] {
      assert s[1..] == post;
      SplitNoSep(post, sep);
    } else {
      assert s[1..] == pre[1..] + [sep] + post;
      SplitAtLast(pre[1..], sep, post);
      LastPiece(s[1..], sep);
    }
  }

  /** ASCII lower-casing of one character. */
  function LowerChar(c: char): char {
    if 'A' <= c <= 'Z' then (c as int + 32) as char else c
  }

  predicate IsUpper(c: char) {
    'A' <= c <= 'Z'
  }

  /** `s.toLowerCase()` restricted to ASCII letters. */
  function ToLower(s: string): (r: string)
    ensures |r| == |s|
    ensures forall i :: 0 <= i < |s| ==> r[i] == LowerChar(s[i])
    ensures forall i :: 0 <= i < |r| ==> !IsUpper(r[i])
  {
    seq(|s|, i requires 0 <= i < |s| => LowerChar(s[i]))
  }

  /** Lower-casing is idempotent. */
  lemma ToLowerIdempotent(s: string)
    ensures ToLower(ToLower(s)) == ToLower(s)
  {
    var once := ToLower(s);
    assert forall i :: 0 <= i < |once| ==> LowerChar(once[i]) == once[i];
  }

  /** A URL query as `URLSearchParams` holds it: name/value pairs in order. */
  type Query = seq<(string, string)>

  /** `params.get(name)`: the value of the first pair with that name, or null. */
  function Get(q: Query, name: string): (r: Option<string>)
    ensures r.Some? <==> exists k :: 0 <= k < |q| && q[k].0 == name
    ensures r.Some? ==> exists k :: 0 <= k < |q| && q[k] == (name, r.value) &&
                                    forall j :: 0 <= j < k ==> q[j].0 != name
  {
    if q == [] then None
    else if q[0].0 == name then Some(q[0].1)
    else
      var r := Get(q[1..], name);
      assert forall k :: 1 <= k < |q| ==> q[k] == q[1..][k - 1];
      r
  }

  /** The value at the first position that carries the name is the one `get`
      returns. */
  lemma {:induction false} GetAt(q: Query, name: string, k: nat)
    requires k < |q| && q[k].0 == name
    requires forall j :: 0 <= j < k ==> q[j].0 != name
    ensures Get(q, name) == Some(q[k].1)
  {
    if k > 0 {
      assert q[0].0 != name;
      GetAt(q[1..], name, k - 1);
    }
  }
}
