/** Resource names: the arms of a controller joined by '&' (utils/conversions.h). */
module ResourceNames {

  /** The first position of '&', or the length if there is none. */
  function FindSeparator(s: string): (k: nat)
    ensures k <= |s| && '&' !in s[..k] && (k < |s| ==> s[k] == '&')
  {
    if s == "" || s[0] == '&' then 0 else
      var k := 1 + FindSeparator(s[1..]);
      assert s[..k] == [s[0]] + s[1..][..k - 1];
      k
  }

  function ResourceToVector(res: string): seq<string>
    decreases |res|
  {
    if res == "" then [] else
      var end := FindSeparator(res);
      if end == |res| then [res] else [res[..end]] + ResourceToVector(res[end + 1..])
  }

  /** The names with '&' between each two of them. */
  ghost function Joined(names: seq<string>): string {
    if names == [] then "" else if |names| == 1 then names[0] else names[0] + "&" + Joined(names[1..])
  }

  method VectorToResource(names: seq<string>) returns (res: string)
    ensures res == Joined(names)
  {
    if names == [] {
      return "";
    }
    res := names[0];
    assert names[..1] == [names[0]];
    for i := 1 to |names|
      invariant res == Joined(names[..i])
    {
      JoinedSnoc(names[..i], names[i]);
      assert names[..i + 1] == names[..i] + [names[i]];
      res := res + "&" + names[i];
    }
    assert names[..|names|] == names;
  }

  lemma {:induction false} JoinedSnoc(names: seq<string>, last: string)
    requires names != []
    ensures Joined(names + [last]) == Joined(names) + "&" + last
  {
    if |names| > 1 {
      JoinedSnoc(names[1..], last);
      assert (names + [last])[1..] == names[1..] + [last];
    }
  }

  lemma {:induction false} PiecesHaveNoSeparator(res: string)
    ensures forall i :: 0 <= i < |ResourceToVector(res)| ==> '&' !in ResourceToVector(res)[i]
    ensures ResourceToVector(res) != [] && res[|res| - 1] != '&' ==>
      ResourceToVector(res)[|ResourceToVector(res)| - 1] != ""
    decreases |res|
  {
    if res != "" {
      var end := FindSeparator(res);
      if end < |res| {
        PiecesHaveNoSeparator(res[end + 1..]);
        if end + 1 < |res| {
          assert res[end + 1..][|res| - end - 2] == res[|res| - 1];
          NonEmptyHasPieces(res[end + 1..]);
        }
      } else {
        assert res[..end] == res;
      }
    }
  }

  lemma NonEmptyHasPieces(res: string)
    ensures ResourceToVector(res) == [] <==> res == ""
  {}

  lemma {:induction false} SeparatorAfterName(name: string, rest: string)
    requires '&' !in name
    ensures FindSeparator(name + "&" + rest) == |name|
    ensures FindSeparator(name) == |name|
  {
    if name != "" {
      SeparatorAfterName(name[1..], rest);
      assert (name + "&" + rest)[1..] == name[1..] + "&" + rest;
    }
  }

  /** Names survive joining and splitting unless one contains '&' or the last one is empty. */
  lemma SplitOfJoin(names: seq<string>)
    ensures ResourceToVector(Joined(names)) == names
      <==> (forall i :: 0 <= i < |names| ==> '&' !in names[i]) && (names == [] || names[|names| - 1] != "")
  {
    if (forall i :: 0 <= i < |names| ==> '&' !in names[i]) && (names == [] || names[|names| - 1] != "") {
      SplitRestores(names);
    } else if ResourceToVector(Joined(names)) == names {
      PiecesHaveNoSeparator(Joined(names));
      TrailingEmptyName(names);
    }
  }

  lemma SplitAfterName(name: string, rest: string)
    requires '&' !in name
    ensures ResourceToVector(name + "&" + rest) == [name] + ResourceToVector(rest)
  {
    SeparatorAfterName(name, rest);
    var res := name + "&" + rest;
    assert res[..|name|] == name && res[|name| + 1..] == rest;
  }

  lemma {:induction false} SplitRestores(names: seq<string>)
    requires forall i :: 0 <= i < |names| ==> '&' !in names[i]
    requires names == [] || names[|names| - 1] != ""
    ensures ResourceToVector(Joined(names)) == names
  {
    hide FindSeparator;
    if |names| == 1 {
      SeparatorAfterName(names[0], "");
    } else if names != [] {
      SplitRestores(names[1..]);
      SplitAfterName(names[0], Joined(names[1..]));
    }
  }

  /** An empty last name is lost: the string then ends where splitting stops. */
  lemma {:induction false} TrailingEmptyName(names: seq<string>)
    requires names != [] && names[|names| - 1] == "" && forall i :: 0 <= i < |names| ==> '&' !in names[i]
    ensures |ResourceToVector(Joined(names))| < |names|
  {
    hide FindSeparator;
    if |names| > 1 {
      TrailingEmptyName(names[1..]);
      SplitAfterName(names[0], Joined(names[1..]));
    }
  }

  /** A resource survives splitting and joining unless it ends in '&'. */
  lemma {:induction false} JoinOfSplit(res: string)
    ensures Joined(ResourceToVector(res)) == res <==> res == "" || res[|res| - 1] != '&'
    decreases |res|
  {
    var end := FindSeparator(res);
    if end == |res| {
      assert '&' !in res[..end] && res[..end] == res;
    } else {
      hide ResourceToVector, Joined, FindSeparator;
      var name, rest := res[..end], res[end + 1..];
      assert res == name + "&" + rest;
      JoinOfSplit(rest);
      NonEmptyHasPieces(rest);
      SplitAfterName(name, rest);
      JoinedCons(name, ResourceToVector(rest));
      if rest != "" {
        assert rest[|rest| - 1] == res[|res| - 1];
        SamePrefix(name + "&", Joined(ResourceToVector(rest)), rest);
      }
    }
  }

  lemma JoinedCons(name: string, names: seq<string>)
    ensures Joined([name] + names) == if names == [] then name else name + "&" + Joined(names)
  {
    assert ([name] + names)[1..] == names;
  }

  lemma SamePrefix(p: string, a: string, b: string)
    ensures p + a == p + b <==> a == b
  {
    if p + a == p + b {
      assert (p + a)[|p|..] == a && (p + b)[|p|..] == b;
    }
  }
}
