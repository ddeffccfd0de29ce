/** Colon-separated ledger account names, and the three helpers of the ledger
    library that the plugins call: `leaf`, `parent` and `sans_root`. */
module AccountNames {
  import opened Results

  /** `name.split(':')`. */
  function Split(name: string): (parts: seq<string>)
    ensures |parts| >= 1
    decreases |name|
  {
    if name == [] then [[]]
    else
      var rest := Split(name[1..]);
      if name[0] == ':' then [[]] + rest else [[name[0]] + rest[0]] + rest[1..]
  }

  /** `':'.join(parts)`. */
  function Join(parts: seq<string>): string
    decreases |parts|
  {
    if parts == [] then []
    else if |parts| == 1 then parts[0]
    else parts[0] + ":" + Join(parts[1..])
  }

  /** The last component, `account.leaf`: the text after the last separator. */
  function Leaf(name: string): string
    decreases |name|
  {
    if ':' in name then Leaf(name[1..]) else name
  }

  /** The text before the last separator, empty when there is none. */
  function BeforeLast(name: string): string
    decreases |name|
  {
    if ':' !in name then []
    else if ':' !in name[1..] then []
    else [name[0]] + BeforeLast(name[1..])
  }

  /** Everything but the last component, `account.parent`: None for the empty name. */
  function Parent(name: string): Option<string> {
    if name == [] then None else Some(BeforeLast(name))
  }

  /** Everything but the first component, `account.sans_root`: the text after
      the first separator, empty when there is none. */
  function SansRoot(name: string): string
    decreases |name|
  {
    if name == [] then []
    else if name[0] == ':' then name[1..]
    else SansRoot(name[1..])
  }

  /** Splitting and joining again gives the name back. */
  lemma {:induction false} JoinSplit(name: string)
    ensures Join(Split(name)) == name
    decreases |name|
  {
    if name != [] {
      JoinSplit(name[1..]);
      var rest := Split(name[1..]);
      if name[0] == ':' {
        JoinCons([], rest);
      } else {
        JoinGlued(name[0], rest);
      }
      assert [name[0]] + name[1..] == name;
    }
  }

  lemma ConsAssoc(c: char, a: string, b: string)
    ensures ([c] + a) + ":" + b == [c] + (a + ":" + b)
  {
  }

  /** Gluing a character onto the first component puts it in front of the joined name. */
  lemma JoinGlued(c: char, rest: seq<string>)
    requires |rest| >= 1
    ensures Join([[c] + rest[0]] + rest[1..]) == [c] + Join(rest)
  {
    if |rest| == 1 {
      assert [[c] + rest[0]] + rest[1..] == [[c] + rest[0]];
    } else {
      var tail := Join(rest[1..]);
      assert Join([[c] + rest[0]] + rest[1..]) == ([c] + rest[0]) + ":" + tail by {
        JoinCons([c] + rest[0], rest[1..]);
      }
      assert Join(rest) == rest[0] + ":" + tail by {
        JoinCons(rest[0], rest[1..]);
        assert [rest[0]] + rest[1..] == rest;
      }
      ConsAssoc(c, rest[0], tail);
    }
  }

  /** No component of a split name contains the separator. */
  lemma {:induction false} SplitPartsColonFree(name: string)
    ensures forall k :: 0 <= k < |Split(name)| ==> ':' !in Split(name)[k]
    decreases |name|
  {
    if name != [] {
      SplitPartsColonFree(name[1..]);
    }
  }

  /** A colon-free prefix followed by the separator is split off as one component. */
  lemma {:induction false} SplitConcat(p: string, tail: string)
    requires ':' !in p
    ensures Split(p + ":" + tail) == [p] + Split(tail)
    decreases |p|
  {
    if p == [] {
      assert (p + ":" + tail)[1..] == tail;
    } else {
      SplitConcat(p[1..], tail);
      assert (p + ":" + tail)[1..] == p[1..] + ":" + tail;
      assert [p[0]] + p[1..] == p;
    }
  }

  /** A colon-free name is a single component. */
  lemma {:induction false} SplitColonFree(p: string)
    requires ':' !in p
    ensures Split(p) == [p]
    decreases |p|
  {
    if p != [] {
      SplitColonFree(p[1..]);
      assert [p[0]] + p[1..] == p;
    }
  }

  /** Joining colon-free components and splitting again gives the components back. */
  lemma {:induction false} SplitJoin(parts: seq<string>)
    requires |parts| >= 1
    requires forall k :: 0 <= k < |parts| ==> ':' !in parts[k]
    ensures Split(Join(parts)) == parts
    decreases |parts|
  {
    if |parts| == 1 {
      SplitColonFree(parts[0]);
    } else {
      SplitJoin(parts[1..]);
      SplitConcat(parts[0], Join(parts[1..]));
      assert [parts[0]] + parts[1..] == parts;
    }
  }

  /** Joining all but the last of at least two components, then the last. */
  lemma {:induction false} JoinSnoc(parts: seq<string>)
    requires |parts| >= 2
    ensures Join(parts) == Join(parts[..|parts| - 1]) + ":" + parts[|parts| - 1]
    decreases |parts|
  {
    if |parts| > 2 {
      JoinSnoc(parts[1..]);
      assert parts[1..][..|parts[1..]| - 1] == parts[..|parts| - 1][1..];
    }
  }

  /** A name with a separator splits into at least two components. */
  lemma {:induction false} SplitSeparated(name: string)
    requires ':' in name
    ensures |Split(name)| >= 2
    decreases |name|
  {
    if name[0] != ':' {
      SplitSeparated(name[1..]);
    }
  }

  /** The leaf is the last element of `name.split(':')`. */
  lemma {:induction false} LeafIsLast(name: string)
    ensures var parts := Split(name); Leaf(name) == parts[|parts| - 1]
    decreases |name|
  {
    if ':' !in name {
      SplitColonFree(name);
    } else {
      LeafIsLast(name[1..]);
      if name[0] != ':' {
        SplitSeparated(name[1..]);
      }
    }
  }

  /** `sans_root` joins all elements of `name.split(':')` but the first. */
  lemma {:induction false} SansRootIsRest(name: string)
    ensures SansRoot(name) == Join(Split(name)[1..])
    decreases |name|
  {
    if name != [] {
      var rest := Split(name[1..]);
      if name[0] == ':' {
        JoinSplit(name[1..]);
        assert ([[]] + rest)[1..] == rest;
      } else {
        SansRootIsRest(name[1..]);
        assert ([[name[0]] + rest[0]] + rest[1..])[1..] == rest[1..];
      }
    }
  }

  /** `parent` joins all elements of `name.split(':')` but the last. */
  lemma {:induction false} BeforeLastIsInit(name: string)
    ensures var parts := Split(name); BeforeLast(name) == Join(parts[..|parts| - 1])
    decreases |name|
  {
    if ':' !in name {
      SplitColonFree(name);
    } else if ':' !in name[1..] {
      SplitColonFree(name[1..]);
      assert Split(name) == [[]] + [name[1..]];
      assert Split(name)[..1] == [[]];
    } else {
      BeforeLastIsInit(name[1..]);
      SplitSeparated(name[1..]);
      if name[0] == ':' {
        BeforeLastColonHead(name);
      } else {
        BeforeLastCharHead(name);
      }
    }
  }

  /** Joining a head component in front of at least one more. */
  lemma JoinCons(h: string, tail: seq<string>)
    requires |tail| >= 1
    ensures Join([h] + tail) == h + ":" + Join(tail)
  {
    assert ([h] + tail)[1..] == tail;
  }

  /** The step of BeforeLastIsInit for a name that starts with the separator. */
  lemma BeforeLastColonHead(name: string)
    requires |name| >= 1 && name[0] == ':' && ':' in name[1..]
    requires |Split(name[1..])| >= 2
    requires var rest := Split(name[1..]); BeforeLast(name[1..]) == Join(rest[..|rest| - 1])
    ensures var parts := Split(name); BeforeLast(name) == Join(parts[..|parts| - 1])
  {
    var rest := Split(name[1..]);
    var init := rest[..|rest| - 1];
    assert Split(name) == [[]] + rest;
    assert (([[]] + rest))[..|rest|] == [[]] + init;
    JoinCons([], init);
    assert BeforeLast(name) == [':'] + BeforeLast(name[1..]);
  }

  /** The step of BeforeLastIsInit for a name that starts with another character. */
  lemma BeforeLastCharHead(name: string)
    requires |name| >= 1 && name[0] != ':' && ':' in name[1..]
    requires |Split(name[1..])| >= 2
    requires var rest := Split(name[1..]); BeforeLast(name[1..]) == Join(rest[..|rest| - 1])
    ensures var parts := Split(name); BeforeLast(name) == Join(parts[..|parts| - 1])
  {
    var rest := Split(name[1..]);
    SplitCharHead(name);
    BeforeLastCons(name);
    InitCharHead(name[0], rest);
  }

  lemma SplitCharHead(name: string)
    requires |name| >= 1 && name[0] != ':'
    ensures var rest := Split(name[1..]); Split(name) == [[name[0]] + rest[0]] + rest[1..]
  {
  }

  lemma BeforeLastCons(name: string)
    requires |name| >= 1 && ':' in name[1..]
    ensures BeforeLast(name) == [name[0]] + BeforeLast(name[1..])
  {
    var k :| 0 <= k < |name[1..]| && name[1..][k] == ':';
    assert name[k + 1] == ':';
  }

  /** Gluing a character to the first component glues it to the join of all but the last. */
  lemma InitCharHead(c: char, rest: seq<string>)
    requires |rest| >= 2
    ensures var parts := [[c] + rest[0]] + rest[1..];
            Join(parts[..|parts| - 1]) == [c] + Join(rest[..|rest| - 1])
  {
    var init := rest[..|rest| - 1];
    var head := [c] + rest[0];
    assert ([head] + rest[1..])[..|rest| - 1] == [head] + init[1..];
    if |rest| == 2 {
      assert init == [rest[0]];
      assert [head] + init[1..] == [head];
    } else {
      JoinCons(rest[0], init[1..]);
      assert [rest[0]] + init[1..] == init;
      JoinCons(head, init[1..]);
    }
  }

  /** For a name with at least two components, parent and leaf put together
      with the separator give the name back. */
  lemma ParentLeaf(name: string)
    requires |Split(name)| >= 2
    ensures Parent(name).Some?
    ensures Parent(name).value + ":" + Leaf(name) == name
  {
    assert name != [];
    BeforeLastIsInit(name);
    LeafIsLast(name);
    JoinSnoc(Split(name));
    JoinSplit(name);
  }

  /** Dropping the root keeps the leaf, for a name with at least two components. */
  lemma SansRootLeaf(name: string)
    requires |Split(name)| >= 2
    ensures Split(SansRoot(name)) == Split(name)[1..]
    ensures Leaf(SansRoot(name)) == Leaf(name)
  {
    var parts := Split(name);
    var rest := parts[1..];
    SansRootIsRest(name);
    SplitPartsColonFree(name);
    forall k | 0 <= k < |rest| ensures ':' !in rest[k] {
      assert rest[k] == parts[k + 1];
    }
    SplitJoin(rest);
    assert Split(SansRoot(name)) == rest;
    LeafIsLast(name);
    LeafIsLast(SansRoot(name));
    assert rest[|rest| - 1] == parts[|parts| - 1];
  }

  /** A name made of a colon-free root and the rest splits into that root and the rest's components. */
  lemma RootAndRest(root: string, rest: string)
    requires ':' !in root
    ensures SansRoot(root + ":" + rest) == rest
    ensures Split(root + ":" + rest) == [root] + Split(rest)
  {
    SansRootIsRest(root + ":" + rest);
    SplitConcat(root, rest);
    assert ([root] + Split(rest))[1..] == Split(rest);
    JoinSplit(rest);
  }
}
