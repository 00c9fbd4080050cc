/**
 * The contents of classes as plain sets of strings: what the ordered lists and range sets of the parser stand for.
 * Each operation is the operation on sets, and a class is determined by its members.
 */
module GrammarSets {
  import opened Basics
  import opened ClassContents
  import opened Syntax
  import G = Grammar
  import P = Pattern

  // ---- Ordered lists of strings ----

  lemma AscendingRest(list: seq<seq<nat>>)
    requires list != []
    ensures G.Ascending(list) <==>
      G.Ascending(list[1..]) && forall t :: t in list[1..] ==> t != list[0] && P.LexicographicLeq(list[0], t)
  {
    if G.Ascending(list) {
      forall t | t in list[1..]
        ensures t != list[0] && P.LexicographicLeq(list[0], t)
      {
        var i :| 0 <= i < |list[1..]| && list[1..][i] == t;
        assert list[i + 1] == t;
      }
    }
    if G.Ascending(list[1..]) && forall t :: t in list[1..] ==> t != list[0] && P.LexicographicLeq(list[0], t) {
      forall i, j | 0 <= i < j < |list|
        ensures list[i] != list[j] && P.LexicographicLeq(list[i], list[j])
      {
        assert list[j] == list[1..][j - 1] && list[j] in list[1..];
        assert i > 0 ==> list[i] == list[1..][i - 1];
      }
    }
  }

  lemma {:induction false} InsertAscends(s: Text, list: seq<Text>)
    requires G.Ascending(list)
    ensures G.Ascending(InsertText(s, list))
    decreases |list|
  {
    hide P.LexicographicLeq;
    if list != [] && s != list[0] {
      AscendingRest(list);
      P.LeqTotal(s, list[0]);
      if P.LexicographicLeq(s, list[0]) {
        forall t | t in list
          ensures t != s && P.LexicographicLeq(s, t)
        {
          if t != list[0] {
            assert t in list[1..];
            P.LeqTransitive(s, list[0], t);
            P.LeqTotal(s, list[0]);
            assert t == s ==> P.LexicographicLeq(list[0], s);
          }
        }
        assert ([s] + list)[1..] == list;
        AscendingRest([s] + list);
      } else {
        InsertAscends(s, list[1..]);
        var rest := InsertText(s, list[1..]);
        assert ([list[0]] + rest)[1..] == rest;
        AscendingRest([list[0]] + rest);
      }
    } else if list == [] {
      assert [s][1..] == [];
    }
  }

  lemma {:induction false} UniteAscends(a: seq<Text>, b: seq<Text>)
    requires G.Ascending(a)
    ensures G.Ascending(UniteTexts(a, b))
    decreases |b|
  {
    if b != [] {
      InsertAscends(b[0], a);
      UniteAscends(InsertText(b[0], a), b[1..]);
    }
  }

  lemma {:induction false} KeepAscends(a: seq<Text>, b: seq<Text>, wanted: bool)
    requires G.Ascending(a)
    ensures G.Ascending(KeepTexts(a, b, wanted))
    decreases |a|
  {
    hide P.LexicographicLeq;
    if a != [] {
      AscendingRest(a);
      KeepAscends(a[1..], b, wanted);
      var rest := KeepTexts(a[1..], b, wanted);
      if (a[0] in b) == wanted {
        assert ([a[0]] + rest)[1..] == rest;
        AscendingRest([a[0]] + rest);
      } else {
        assert [] + rest == rest;
      }
    }
  }

  lemma {:induction false} MapAscends(f: CodePoint -> CodePoint, list: seq<Text>)
    ensures G.Ascending(MapTexts(f, list))
    decreases |list|
  {
    if list != [] {
      var front := list[..|list| - 1];
      MapAscends(f, front);
      InsertAscends(MapText(f, list[|list| - 1]), MapTexts(f, front));
    }
  }

  /** An ordered list is determined by its members. */
  lemma {:induction false} SameTexts(a: seq<seq<nat>>, b: seq<seq<nat>>)
    requires G.Ascending(a) && G.Ascending(b) && forall t :: t in a <==> t in b
    ensures a == b
    decreases |a|
  {
    hide P.LexicographicLeq;
    assert a != [] ==> a[0] in b;
    assert b != [] ==> b[0] in a;
    if a != [] && b != [] {
      AscendingRest(a);
      AscendingRest(b);
      assert a[0] == b[0] || a[0] in b[1..];
      assert b[0] == a[0] || b[0] in a[1..];
      P.LeqTotal(a[0], b[0]);
      forall t
        ensures t in a[1..] <==> t in b[1..]
      {
        assert t in a <==> t == a[0] || t in a[1..];
        assert t in b <==> t == b[0] || t in b[1..];
      }
      SameTexts(a[1..], b[1..]);
    }
  }

  // ---- Contents ----

  /** All members: characters, as strings of their own, and strings. */
  ghost function All(set_: ClassSet): iset<Text> {
    iset t: Text | (|t| == 1 && t[0] in set_.characters) || t in set_.strings
  }

  /** The contents are these members, and the strings are in order. */
  ghost predicate Contain(set_: ClassSet, texts: iset<Text>) {
    All(set_) == texts && G.Ascending(set_.strings)
  }

  lemma NothingContains()
    ensures Contain(NOTHING, iset{})
  {
  }

  lemma PlainContains(characters: iset<CodePoint>)
    ensures Contain(Plain(characters), G.Singles(characters))
  {
  }

  lemma UniteContains(a: ClassSet, b: ClassSet, left: iset<Text>, right: iset<Text>)
    requires Contain(a, left) && Contain(b, right)
    ensures Contain(Unite(a, b), left + right)
  {
    UniteAscends(a.strings, b.strings);
  }

  lemma IntersectContains(a: ClassSet, b: ClassSet, left: iset<Text>, right: iset<Text>)
    requires Contain(a, left) && Contain(b, right)
    ensures Contain(Intersect(a, b), left * right)
  {
    KeepAscends(a.strings, b.strings, true);
  }

  lemma SubtractContains(a: ClassSet, b: ClassSet, left: iset<Text>, right: iset<Text>)
    requires Contain(a, left) && Contain(b, right)
    ensures Contain(Subtract(a, b), left - right)
  {
    KeepAscends(a.strings, b.strings, false);
  }

  lemma AddContains(s: Text, set_: ClassSet, texts: iset<Text>)
    requires Contain(set_, texts)
    ensures Contain(AddText(s, set_), texts + iset{s})
  {
    if |s| == 1 {
      assert forall t: Text :: |t| == 1 && t[0] == s[0] <==> t == s;
    } else {
      InsertAscends(s, set_.strings);
    }
  }

  lemma {:induction false} AddAllContain(list: seq<Text>, set_: ClassSet, texts: iset<Text>)
    requires Contain(set_, texts)
    ensures Contain(AddTexts(list, set_), texts + iset t | t in list)
    decreases |list|
  {
    hide Contain;
    if list == [] {
      assert texts + (iset t | t in list) == texts;
    } else {
      AddContains(list[0], set_, texts);
      AddAllContain(list[1..], AddText(list[0], set_), texts + iset{list[0]});
      assert texts + iset{list[0]} + (iset t | t in list[1..]) == texts + iset t | t in list;
    }
  }

  lemma ImageContains(x: Context, set_: ClassSet, texts: iset<Text>)
    requires Contain(set_, texts)
    ensures Contain(ImageSet(Folding(x), set_), G.FoldedTexts(x, true, texts))
  {
    MapAscends(Folding(x), set_.strings);
    var image := ImageSet(Folding(x), set_);
    forall t: Text
      ensures G.FoldedText(x, true, t) == MapText(Folding(x), t)
    {
    }
    forall t: Text
      ensures t in All(image) <==> t in G.FoldedTexts(x, true, texts)
    {
      if |t| == 1 && t[0] in image.characters {
        var c :| c in set_.characters && Folding(x)(c) == t[0];
        assert [c] in texts && G.FoldedText(x, true, [c]) == t;
      }
      if t in image.strings {
        var u :| u in set_.strings && t == MapText(Folding(x), u);
        assert u in texts && G.FoldedText(x, true, u) == t;
      }
      if t in G.FoldedTexts(x, true, texts) {
        var u :| u in texts && G.FoldedText(x, true, u) == t;
        assert u in All(set_);
        if |u| == 1 && u[0] in set_.characters {
          assert t[0] == Folding(x)(u[0]);
        } else {
          assert t == MapText(Folding(x), u);
        }
      }
    }
  }

  lemma FoldedIs(x: Context, ignoreCase: bool, characters: iset<CodePoint>)
    ensures G.Folded(x, ignoreCase, characters) == Folded(x, ignoreCase, characters)
  {
    if ignoreCase {
      forall c: CodePoint
        ensures c in G.Folded(x, true, characters) <==> c in Image(Folding(x), characters)
      {
        if c in Image(Folding(x), characters) {
          var d :| d in characters && Folding(x)(d) == c;
          assert G.CaseOf(x, d) == c;
        }
      }
    }
  }

  // ---- Classes ----

  lemma HeldByClass(set_: ClassSet, texts: iset<Text>, inverted: bool)
    requires Contain(set_, texts)
    ensures G.Holds(ClassOf(set_, inverted), texts)
  {
    var class_ := ClassOf(set_, inverted);
    assert G.CharactersIn(texts) == set_.characters by {
      forall c: CodePoint
        ensures [c] in texts <==> c in set_.characters
      {
        assert [c] in All(set_) <==> c in set_.characters;
      }
    }
    forall t: Text
      ensures t in class_.strings <==> t in texts && |t| != 1
    {
      assert t in texts <==> t in All(set_);
    }
  }

  /** A class is determined by its members. */
  lemma SameClass(a: P.CharacterClass, b: P.CharacterClass, texts: iset<Text>)
    requires G.Holds(a, texts) && G.Holds(b, texts) && a.inverted == b.inverted
    ensures a == b
  {
    SameRanges(a.ranges, b.ranges);
    forall t
      ensures t in a.strings <==> t in b.strings
    {
      if t in a.strings {
        SameMember(a, b, texts, t);
      }
      if t in b.strings {
        SameMember(b, a, texts, t);
      }
    }
    SameTexts(a.strings, b.strings);
  }

  lemma SameMember(a: P.CharacterClass, b: P.CharacterClass, texts: iset<Text>, t: seq<nat>)
    requires G.Holds(a, texts) && G.Holds(b, texts) && t in a.strings
    ensures t in b.strings
  {
    forall i | 0 <= i < |t|
      ensures t[i] <= MAX_CODE_POINT
    {
      assert t[i] in t;
    }
    var u: Text := t;
    assert u in texts && |u| != 1;
  }

  lemma ClassIs(set_: ClassSet, texts: iset<Text>, class_: P.CharacterClass)
    requires Contain(set_, texts)
    ensures G.Holds(class_, texts) <==> class_ == ClassOf(set_, class_.inverted)
  {
    hide G.Holds;
    hide Contain;
    HeldByClass(set_, texts, class_.inverted);
    if G.Holds(class_, texts) {
      SameClass(class_, ClassOf(set_, class_.inverted), texts);
    }
  }
}
