/** Scopes as one string: joined with single spaces, as the OAuth answer lists them. */
module Scopes {
  import opened Types

  // The index of the first space, or the length when there is none.
  function FirstSpace(s: string): (i: nat)
    ensures i <= |s| && forall j :: 0 <= j < i ==> s[j] != ' '
    ensures i < |s| ==> s[i] == ' '
  {
    if s == "" || s[0] == ' ' then 0 else 1 + FirstSpace(s[1..])
  }

  // The parts between the spaces, at least one.
  function Split(s: string): (parts: seq<string>)
    ensures parts != []
    decreases |s|
  {
    var i := FirstSpace(s);
    if i == |s| then [s] else [s[..i]] + Split(s[i + 1..])
  }

  ghost predicate NoSpace(s: string) {
    forall i :: 0 <= i < |s| ==> s[i] != ' '
  }

  lemma JoinMore(head: string, tail: seq<string>)
    requires tail != []
    ensures JoinScopes([head] + tail) == head + " " + JoinScopes(tail)
  {
    assert ([head] + tail)[1..] == tail;
  }

  lemma SplitMore(head: string, tail: string)
    requires NoSpace(head)
    ensures Split(head + " " + tail) == [head] + Split(tail)
  {
    var s := head + " " + tail;
    FirstSpaceAfter(head, tail);
    assert s[..|head|] == head && s[|head| + 1..] == tail;
  }

  lemma FirstSpaceAfter(head: string, tail: string)
    requires NoSpace(head)
    ensures FirstSpace(head + " " + tail) == |head|
  {
    var s := head + " " + tail;
    assert s[|head|] == ' ' && forall j :: 0 <= j < |head| ==> s[j] == head[j];
  }

  lemma SplitNothing(s: string)
    requires NoSpace(s)
    ensures Split(s) == [s]
  {
  }

  // Splitting gives the scopes back.
  lemma {:induction false} JoinThenSplit(scopes: seq<string>)
    requires scopes != [] && forall scope <- scopes :: NoSpace(scope)
    ensures Split(JoinScopes(scopes)) == scopes
    decreases |scopes|
  {
    var head, tail := scopes[0], scopes[1..];
    assert scopes == [head] + tail && NoSpace(head);
    if tail == [] {
      SplitNothing(head);
    } else {
      JoinThenSplit(tail);
      JoinMore(head, tail);
      SplitMore(head, JoinScopes(tail));
    }
  }

  // A string with a space is what is before the first one, and what is after it.
  lemma AtFirstSpace(s: string) returns (head: string, tail: string)
    requires FirstSpace(s) < |s|
    ensures s == head + " " + tail && NoSpace(head)
  {
    head, tail := s[..FirstSpace(s)], s[FirstSpace(s) + 1..];
  }

  // Joining gives the string back.
  lemma {:induction false} SplitThenJoin(s: string)
    ensures JoinScopes(Split(s)) == s
    decreases |s|
  {
    if FirstSpace(s) < |s| {
      var head, tail := AtFirstSpace(s);
      SplitThenJoin(tail);
      SplitMore(head, tail);
      JoinMore(head, Split(tail));
    }
  }

  // text lists these scopes, separated by single spaces.
  ghost predicate Joined(scopes: seq<string>, text: string) {
    && (scopes == [] ==> text == "")
    && (scopes != [] && (forall scope <- scopes :: NoSpace(scope)) ==> Split(text) == scopes)
  }

  lemma JoinedExactly(scopes: seq<string>)
    ensures Joined(scopes, JoinScopes(scopes))
  {
    if scopes != [] && forall scope <- scopes :: NoSpace(scope) {
      JoinThenSplit(scopes);
    }
  }
}
