/** `string_list_add` and the list format behind `ipc_list_devices`: NUL-terminated strings one after the
    other, and an empty string at the end. */
module StringList {

  const NUL: char := 0 as char

  /** A C string without its terminator. */
  predicate CString(s: string) { NUL !in s }

  function StrLen(b: seq<char>): (n: nat)
    ensures n <= |b| && NUL !in b[..n] && (n < |b| ==> b[n] == NUL)
  {
    if b == [] || b[0] == NUL then 0
    else
      var n := 1 + StrLen(b[1..]);
      assert b[..n] == [b[0]] + b[1..][..n - 1];
      n
  }

  /** The strings a reader finds by stepping over each string and its terminator until an empty one. */
  function Walk(b: seq<char>): seq<string>
    decreases |b|
  {
    var n := StrLen(b);
    if n == 0 then [] else [b[..n]] + if n < |b| then Walk(b[n + 1..]) else []
  }

  /** The bytes of a list of strings, before the final terminator. */
  function Joined(words: seq<string>): seq<char> {
    if words == [] then [] else Joined(words[..|words| - 1]) + words[|words| - 1] + [NUL]
  }

  predicate Names(words: seq<string>) { forall i :: 0 <= i < |words| ==> words[i] != "" && CString(words[i]) }

  lemma StrLenIs(b: seq<char>, n: nat)
    requires n < |b| && NUL !in b[..n] && b[n] == NUL
    ensures StrLen(b) == n
  {
  }

  lemma WalkWord(w: string, rest: seq<char>)
    requires w != "" && CString(w)
    ensures Walk(w + [NUL] + rest) == [w] + Walk(rest)
  {
    hide StrLen;
    var b := w + [NUL] + rest;
    assert b[..|w|] == w && b[|w| + 1..] == rest;
    StrLenIs(b, |w|);
  }

  lemma {:induction false} WalkJoined(words: seq<string>, rest: seq<char>)
    requires Names(words)
    ensures Walk(Joined(words) + rest) == words + Walk(rest)
  {
    hide Walk, CString;
    if words == [] {
      assert Joined(words) + rest == rest;
    } else {
      var init, w := words[..|words| - 1], words[|words| - 1];
      assert Joined(words) + rest == Joined(init) + (w + [NUL] + rest);
      WalkJoined(init, w + [NUL] + rest);
      WalkWord(w, rest);
    }
  }

  /** The terminated buffer reads back as its strings, whatever lies behind the terminator. */
  lemma WalkBuffer(words: seq<string>, slack: seq<char>)
    requires Names(words)
    ensures Walk(Joined(words) + [NUL] + slack) == words
  {
    hide Walk, Joined;
    WalkJoined(words, [NUL] + slack);
    WalkEnd(slack);
    assert Joined(words) + [NUL] + slack == Joined(words) + ([NUL] + slack);
  }

  lemma WalkEnd(slack: seq<char>)
    ensures Walk([NUL] + slack) == []
  {
  }

  class List {
    var buffer: array<char>
    var len: nat
    ghost var words: seq<string>

    /** Nothing stored yet, or the strings, their terminator, and room for both. */
    ghost predicate Valid()
      reads this, buffer
    {
      && Names(words)
      && (if words == [] then len == 0 && buffer.Length == 0
          else len + 1 <= buffer.Length && buffer[..len] == Joined(words) && buffer[len] == NUL)
    }

    constructor ()
      ensures Valid() && words == [] && fresh(buffer)
    {
      buffer, len, words := new char[0], 0, [];
    }

    /** `string_list_add`; the empty string is skipped. */
    method Add(str: string)
      requires Valid() && CString(str)
      modifies this, buffer
      ensures Valid() && words == old(words) + (if str == "" then [] else [str])
      ensures buffer == old(buffer) || fresh(buffer)
    {
      hide Joined;
      var n := |str| + 1;
      if n == 1 {
        return;
      }
      JoinedSnoc(words, str);
      if n >= buffer.Length - len {
        Grow(n);
      }
      Copy(str + [NUL]);
      assert Joined(words) + (str + [NUL]) == Joined(words) + str + [NUL];
      len := len + n;
      buffer[len] := NUL;
      words := words + [str];
    }

    /** The `memcpy` behind what is stored. */
    method Copy(data: seq<char>)
      requires len + |data| < buffer.Length
      modifies buffer
      ensures buffer[..len + |data|] == old(buffer[..len]) + data
    {
      forall k | 0 <= k < |data| { buffer[len + k] := data[k]; }
      assert buffer[..len + |data|] == buffer[..len] + buffer[len..len + |data|];
    }

    /** The reallocation: the capacity doubles, or becomes just enough. */
    method Grow(n: nat)
      requires len <= buffer.Length
      modifies this`buffer
      ensures fresh(buffer) && len + n + 1 <= buffer.Length && buffer[..len] == old(buffer[..len])
    {
      var newCap := if buffer.Length * 2 < len + n + 1 then len + n + 1 else buffer.Length * 2;
      var old_ := buffer;
      var newBuffer := new char[newCap];
      forall k | 0 <= k < len { newBuffer[k] := old_[k]; }
      buffer := newBuffer;
      assert buffer[..len] == old_[..len];
    }

    /** What a reader of the list finds: every stored string, in order. */
    method Read() returns (names: seq<string>)
      requires Valid()
      ensures names == words
    {
      hide Walk, Joined;
      if buffer.Length == 0 {
        return [];
      }
      names := Walk(buffer[..]);
      assert buffer[..] == buffer[..len] + [NUL] + buffer[len + 1..];
      WalkBuffer(words, buffer[len + 1..]);
    }
  }

  lemma JoinedSnoc(words: seq<string>, w: string)
    ensures Joined(words + [w]) == Joined(words) + w + [NUL] && Joined([]) == []
  {
    assert (words + [w])[..|words|] == words;
  }

  function NonEmpty(strs: seq<string>): seq<string> {
    if strs == [] then []
    else NonEmpty(strs[..|strs| - 1]) + if strs[|strs| - 1] == "" then [] else [strs[|strs| - 1]]
  }

  /** Any sequence of additions: the reader finds exactly the non-empty strings, in order. */
  method AddAll(strs: seq<string>) returns (names: seq<string>)
    requires forall i :: 0 <= i < |strs| ==> CString(strs[i])
    ensures names == NonEmpty(strs)
  {
    var list := new List();
    var i := 0;
    while i < |strs|
      invariant 0 <= i <= |strs| && fresh(list) && fresh(list.buffer) && list.Valid() && list.words == NonEmpty(strs[..i])
    {
      assert strs[..i + 1][..i] == strs[..i];
      list.Add(strs[i]);
      i := i + 1;
    }
    assert strs[..i] == strs;
    names := list.Read();
  }
}
