/**
 * Object ids below the instance. The source handles them as text; every id below `devices.` or `groups.` splits
 * uniquely into the root of its device tree and the segments below it, and the move changes the root only.
 */
module ObjectIds {
  import opened Options

  /** An id split at the root of its device tree. */
  datatype Id =
    | Below(root: string, path: seq<string>)
    | Outside(name: string)

  const FOLDERS := ["devices.", "groups."]

  /** The root itself. */
  function Root(root: string): Id {
    Below(root, [])
  }

  function UpToDot(s: string): (k: nat)
    ensures k <= |s|
    ensures '.' !in s[..k]
    ensures k < |s| ==> s[k] == '.'
  {
    if s == [] || s[0] == '.' then 0 else 1 + UpToDot(s[1..])
  }

  function FolderLength(s: string): nat {
    if FOLDERS[0] <= s then |FOLDERS[0]| else if FOLDERS[1] <= s then |FOLDERS[1]| else 0
  }

  /** The form the migration asks of a tree: `devices.<id>` or `groups.<id>`, no further dot. */
  predicate RootForm(s: string) {
    var k := FolderLength(s);
    k > 0 && k < |s| && '.' !in s[k..]
  }

  /** An id in split form: a root, and segments without dots. */
  predicate Proper(id: Id) {
    match id
    case Below(root, path) => RootForm(root) && forall i | 0 <= i < |path| :: '.' !in path[i]
    case Outside(name) => Parse(name) == id
  }

  /** The text of the segments below a root. */
  function Tail(path: seq<string>): (s: string)
    ensures path == [] <==> s == ""
    ensures s != "" ==> s[0] == '.'
  {
    if path == [] then "" else "." + path[0] + Tail(path[1..])
  }

  function Segments(s: string): seq<string>
    requires s != "" ==> s[0] == '.'
    decreases |s|
  {
    if s == "" then []
    else
      var k := UpToDot(s[1..]);
      [s[1..1 + k]] + Segments(s[1 + k..])
  }

  function Parse(s: string): Id {
    var k := FolderLength(s);
    var n := k + (if k > 0 then UpToDot(s[k..]) else 0);
    if n > k then Below(s[..n], Segments(s[n..])) else Outside(s)
  }

  function Print(id: Id): string {
    match id
    case Below(root, path) => root + Tail(path)
    case Outside(name) => name
  }

  lemma {:induction false} TailSegments(s: string)
    requires s != "" ==> s[0] == '.'
    ensures Tail(Segments(s)) == s
    ensures forall i | 0 <= i < |Segments(s)| :: '.' !in Segments(s)[i]
    decreases |s|
  {
    hide UpToDot, Tail;
    if s != "" {
      var k := UpToDot(s[1..]);
      var first, rest := s[1..1 + k], s[1 + k..];
      assert first == s[1..][..k] && s == "." + first + rest;
      TailSegments(rest);
      TailOne(first, Segments(rest));
    } else {
      assert Segments(s) == [];
    }
  }

  lemma TailOne(first: string, path: seq<string>)
    ensures Tail([first] + path) == "." + first + Tail(path)
  {
    assert ([first] + path)[1..] == path;
  }

  lemma {:induction false} SegmentsTail(path: seq<string>)
    requires forall i | 0 <= i < |path| :: '.' !in path[i]
    ensures Segments(Tail(path)) == path
  {
    if path != [] {
      SegmentsTail(path[1..]);
      FirstSegment(path[0], Tail(path[1..]));
    }
  }

  lemma FirstSegment(first: string, rest: string)
    requires '.' !in first && (rest != "" ==> rest[0] == '.')
    ensures Segments("." + first + rest) == [first] + Segments(rest)
  {
    hide UpToDot;
    var s := "." + first + rest;
    assert s[1..] == first + rest;
    assert s[1..][..|first|] == first;
    UpToDotUnique(s[1..], |first|);
    assert s[1..1 + |first|] == first && s[1 + |first|..] == rest;
  }

  /** `movedId` of the source, over text. */
  function MovedId(id: string, from: string, to: string): Option<string> {
    if id == from then Some(to)
    else if from + "." <= id then Some(to + id[|from|..])
    else None
  }

  /** The same over split ids: the root changes, the segments stay. */
  function Moved(id: Id, from: string, to: string): Option<Id> {
    if id.Below? && id.root == from then Some(Below(to, id.path)) else None
  }

  lemma UpToDotUnique(s: string, k: nat)
    requires k <= |s| && '.' !in s[..k] && (k < |s| ==> s[k] == '.')
    ensures UpToDot(s) == k
  {
    var n := UpToDot(s);
    assert forall i :: 0 <= i < k ==> s[i] == s[..k][i];
    assert forall i :: 0 <= i < n ==> s[i] == s[..n][i];
  }

  /** Splitting is exact: nothing is lost, and what is split is in split form. */
  lemma PrintParse(s: string)
    ensures Print(Parse(s)) == s
    ensures Proper(Parse(s))
  {
    hide UpToDot, Segments, Tail;
    var k := FolderLength(s);
    if k > 0 {
      var n := k + UpToDot(s[k..]);
      if n > k {
        TailSegments(s[n..]);
        assert s[..n] + s[n..] == s;
        assert s[..n][k..] == s[k..][..n - k];
        assert FolderLength(s[..n]) == k;
      }
    }
  }

  /** Splitting is unique: a printed id splits back into the same parts. */
  lemma ParsePrint(id: Id)
    requires Proper(id)
    ensures Parse(Print(id)) == id
  {
    if id.Below? {
      var rest := Tail(id.path);
      var s, k := id.root + rest, FolderLength(id.root);
      FolderOfPrefix(id.root, rest);
      SegmentsTail(id.path);
      assert s[k..][..|id.root| - k] == id.root[k..];
      assert |id.root| - k < |s[k..]| ==> s[k..][|id.root| - k] == rest[0];
      UpToDotUnique(s[k..], |id.root| - k);
      assert s[..|id.root|] == id.root && s[|id.root|..] == rest;
    }
  }

  lemma FolderOfPrefix(root: string, rest: string)
    requires FolderLength(root) > 0
    ensures FolderLength(root + rest) == FolderLength(root)
  {
    assert FOLDERS[0] <= root ==> FOLDERS[0] <= root + rest;
    assert FOLDERS[1] <= root ==> FOLDERS[1] <= root + rest;
    assert FOLDERS[0][0] != FOLDERS[1][0];
  }

  /** Changing the root of the split form is exactly what `movedId` does to the text. */
  lemma MovedIdIsRootChange(s: string, from: string, to: string)
    requires RootForm(from) && RootForm(to)
    ensures MovedId(s, from, to) ==
            match Moved(Parse(s), from, to)
            case None => None
            case Some(id) => Some(Print(id))
  {
    RootPrefix(s, from);
    if s == from {
      assert to + "" == to;
    }
  }

  /** An id lies in a tree exactly when its text is the root or continues it with a dot. */
  lemma RootPrefix(s: string, root: string)
    requires RootForm(root)
    ensures var id := Parse(s);
            && ((id.Below? && id.root == root) <==> (s == root || root + "." <= s))
            && (id.Below? && id.root == root ==> Tail(id.path) == s[|root|..] && (s == root <==> id.path == []))
  {
    PrintParse(s);
    if s == root || root + "." <= s {
      PrefixParses(s, root);
    } else {
      var id := Parse(s);
      if id.Below? {
        var rest := Tail(id.path);
        assert rest == "" ==> id.root + rest == id.root;
        assert rest != "" ==> id.root + "." <= id.root + rest;
      }
    }
  }

  lemma PrefixParses(s: string, root: string)
    requires RootForm(root) && (s == root || root + "." <= s)
    ensures Parse(s).Below? && Parse(s).root == root && Tail(Parse(s).path) == s[|root|..]
  {
    var rest := s[|root|..];
    Cut(s, root);
    TailSegments(rest);
    hide Tail, Segments, RootForm;
    var id := Below(root, Segments(rest));
    assert Print(id) == s;
    ParsePrint(id);
  }

  lemma Cut(s: string, root: string)
    requires s == root || root + "." <= s
    ensures |root| <= |s| && root + s[|root|..] == s
    ensures s[|root|..] != "" ==> s[|root|..][0] == '.'
  {
    if s != root {
      assert s[|root|] == (root + ".")[|root|] == '.';
      assert s[..|root|] == (root + ".")[..|root|] == root;
    }
  }

  /** Moving there and back is the identity, so two ids never land on one. */
  lemma MovedBack(s: string, from: string, to: string)
    requires RootForm(from) && RootForm(to)
    requires MovedId(s, from, to).Some?
    ensures MovedId(MovedId(s, from, to).value, to, from) == Some(s)
  {
    var n := MovedId(s, from, to).value;
    if s == from {
    } else {
      assert s[|from|] == (from + ".")[|from|] == '.';
      assert n[|to|..] == s[|from|..];
      assert n[..|to| + 1] == to + ".";
      assert from + s[|from|..] == s by {
        assert s[..|from|] == (from + ".")[..|from|] == from;
      }
      assert |n| > |to|;
    }
  }

  /** The roots of device trees: one id, without a dot, below one of the two folders. */
  lemma RootFormIs(s: string)
    ensures RootForm(s) <==> exists id :: id != "" && '.' !in id && (s == "devices." + id || s == "groups." + id)
  {
    var d, g := "devices.", "groups.";
    assert FOLDERS[0] == d && FOLDERS[1] == g;
    if RootForm(s) {
      var k := FolderLength(s);
      assert s == s[..k] + s[k..];
      assert s[..k] == d || s[..k] == g;
    }
    forall id | id != "" && '.' !in id && (s == d + id || s == g + id) ensures RootForm(s) {
      assert (d + id)[0] == 'd' && (g + id)[0] == 'g';
      assert (d + id)[|d|..] == id && (g + id)[|g|..] == id;
      assert d <= d + id && g <= g + id && !(d <= g + id);
    }
  }
}
