/** The text operations of the patch serialiser: joining rendered values with ", " and splitting them back. */
module Text {

  /** `intersperse(", ").collect()`: the parts in order, ", " between neighbours, nothing at the end. */
  function Join(parts: seq<string>): string
  {
    if parts == [] then ""
    else if |parts| == 1 then parts[0]
    else parts[0] + ", " + Join(parts[1..])
  }

  /** True when ", " occurs somewhere in `s`. */
  predicate ContainsSeparator(s: string)
  {
    exists i :: 0 <= i < |s| - 1 && s[i] == ',' && s[i + 1] == ' '
  }

  /** Splitting on every ", " from left to right: the reference reading of a joined text. */
  function Split(s: string): (r: seq<string>)
    ensures |r| >= 1
    decreases |s|
  {
    if |s| >= 2 && s[0] == ',' && s[1] == ' ' then [""] + Split(s[2..])
    else if s == [] then [""]
    else
      var rest := Split(s[1..]);
      [[s[0]] + rest[0]] + rest[1..]
  }

  /** The concatenation of the groups, in order. */
  function Concat(groups: seq<seq<string>>): seq<string>
  {
    if groups == [] then [] else groups[0] + Concat(groups[1..])
  }

  lemma {:induction false} SplitPlain(v: string)
    requires !ContainsSeparator(v)
    ensures Split(v) == [v]
  {
    if v != [] {
      assert |v| >= 2 ==> !(v[0] == ',' && v[1] == ' ');
      SeparatorFreeTail(v);
      SplitPlain(v[1..]);
      assert [v[0]] + v[1..] == v;
    }
  }

  lemma SeparatorFreeTail(v: string)
    requires v != [] && !ContainsSeparator(v)
    ensures !ContainsSeparator(v[1..])
  {
    forall i | 0 <= i < |v[1..]| - 1
      ensures !(v[1..][i] == ',' && v[1..][i + 1] == ' ')
    {
      assert v[1..][i] == v[i + 1] && v[1..][i + 1] == v[i + 2];
    }
  }

  lemma {:induction false} SplitHead(v: string, t: string)
    requires !ContainsSeparator(v)
    ensures Split(v + ", " + t) == [v] + Split(t)
  {
    var s := v + ", " + t;
    if v == [] {
      assert s == ", " + t;
      assert s[2..] == t;
    } else {
      assert s[0] == v[0];
      assert |v| >= 2 ==> s[1] == v[1] && !(v[0] == ',' && v[1] == ' ');
      assert |v| == 1 ==> s[1] == ',';
      SeparatorFreeTail(v);
      assert s[1..] == v[1..] + ", " + t;
      SplitHead(v[1..], t);
      assert [v[0]] + v[1..] == v;
    }
  }

  /** Splitting a join gives back the parts, provided no part contains the separator. */
  lemma {:induction false} SplitJoin(parts: seq<string>)
    requires parts != []
    requires forall i :: 0 <= i < |parts| ==> !ContainsSeparator(parts[i])
    ensures Split(Join(parts)) == parts
  {
    if |parts| == 1 {
      SplitPlain(parts[0]);
    } else {
      SplitJoin(parts[1..]);
      SplitHead(parts[0], Join(parts[1..]));
      assert [parts[0]] + parts[1..] == parts;
    }
  }

  lemma {:induction false} JoinAppend(a: seq<string>, b: seq<string>)
    requires a != [] && b != []
    ensures Join(a + b) == Join(a) + ", " + Join(b)
  {
    if |a| == 1 {
      assert (a + b)[1..] == b;
    } else {
      assert (a + b)[1..] == a[1..] + b;
      JoinAppend(a[1..], b);
    }
  }

  /** Joining joined groups equals joining all their parts at once, when no group is empty. */
  lemma {:induction false} JoinConcat(groups: seq<seq<string>>, joined: seq<string>)
    requires forall i :: 0 <= i < |groups| ==> groups[i] != []
    requires |joined| == |groups| && forall i :: 0 <= i < |groups| ==> joined[i] == Join(groups[i])
    ensures Join(joined) == Join(Concat(groups))
  {
    if |groups| > 1 {
      JoinConcat(groups[1..], joined[1..]);
      assert Concat(groups[1..]) != [] by {
        assert |Concat(groups[1..])| >= |groups[1]| by {
          assert Concat(groups[1..]) == groups[1] + Concat(groups[2..]);
        }
      }
      JoinAppend(groups[0], Concat(groups[1..]));
    } else if |groups| == 1 {
      assert groups[1..] == [];
      assert Concat(groups) == groups[0] + Concat(groups[1..]);
      assert Concat(groups[1..]) == [];
      assert Concat(groups) == groups[0];
    }
  }

  lemma {:induction false} ConcatUniformLength(groups: seq<seq<string>>, k: nat)
    requires forall i :: 0 <= i < |groups| ==> |groups[i]| == k
    ensures |Concat(groups)| == |groups| * k
  {
    if groups != [] {
      ConcatUniformLength(groups[1..], k);
    }
  }

  lemma {:induction false} ConcatAt(groups: seq<seq<string>>, k: nat, i: nat, j: nat)
    requires forall n :: 0 <= n < |groups| ==> |groups[n]| == k
    requires i < |groups| && j < k
    ensures |Concat(groups)| == |groups| * k
    ensures i * k + j < |Concat(groups)| && Concat(groups)[i * k + j] == groups[i][j]
  {
    ConcatUniformLength(groups, k);
    if i > 0 {
      ConcatAt(groups[1..], k, i - 1, j);
      assert (i - 1) * k + j + k == i * k + j;
    }
  }
}
