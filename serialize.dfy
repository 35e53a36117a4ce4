/** The crawler's snapshot records (its serialisation dataclasses) and the
    crawled-item records that feed them. The JSON encoding itself is a library
    call and is not modelled. */
module Serialize {
  import opened Wrappers

  datatype OutputItem = OutputItem(name: string, source: string, description: string, time: string)
  datatype OutputList = OutputList(name: string, source: string, description: string, items: seq<OutputItem>)
  datatype Output = Output(lists: seq<OutputList>)

  function ItemName(x: OutputItem): string { x.name }
  function ListName(l: OutputList): string { l.name }

  /** The names of a sequence of records, in order. */
  function Names<T>(xs: seq<T>, name: T -> string): (ns: seq<string>)
    ensures |ns| == |xs| && forall i :: 0 <= i < |xs| ==> ns[i] == name(xs[i])
  {
    seq(|xs|, i requires 0 <= i < |xs| => name(xs[i]))
  }

  lemma {:induction false} InNames<T>(xs: seq<T>, name: T -> string, n: string)
    ensures n in Names(xs, name) <==> exists i :: 0 <= i < |xs| && name(xs[i]) == n
  {
    if n in Names(xs, name) {
      var i :| 0 <= i < |xs| && Names(xs, name)[i] == n;
    }
    if exists i :: 0 <= i < |xs| && name(xs[i]) == n {
      var i :| 0 <= i < |xs| && name(xs[i]) == n;
      assert Names(xs, name)[i] == n;
    }
  }

  lemma {:induction false} NamesAppend<T>(a: seq<T>, b: seq<T>, name: T -> string)
    ensures Names(a + b, name) == Names(a, name) + Names(b, name)
  {
  }

  /** `find_list`: the first record with the given name, or None. */
  function FindByName<T(==)>(xs: seq<T>, name: T -> string, n: string): (r: Option<T>)
    ensures r.None? <==> forall i :: 0 <= i < |xs| ==> name(xs[i]) != n
    ensures r.Some? ==> exists i :: 0 <= i < |xs| && xs[i] == r.value && name(xs[i]) == n &&
                                     forall j :: 0 <= j < i ==> name(xs[j]) != n
  {
    if xs == [] then None
    else if name(xs[0]) == n then
      Some(xs[0])
    else
      var r := FindByName(xs[1..], name, n);
      if r.Some? then
        var i :| 0 <= i < |xs[1..]| && xs[1..][i] == r.value && name(xs[1..][i]) == n &&
                 forall j :: 0 <= j < i ==> name(xs[1..][j]) != n;
        assert forall j :: 0 <= j < i + 1 ==> name(xs[j]) != n by {
          forall j | 0 <= j < i + 1 ensures name(xs[j]) != n {
            if j > 0 { assert xs[j] == xs[1..][j - 1]; }
          }
        }
        r
      else
        assert forall i :: 0 <= i < |xs| ==> name(xs[i]) != n by {
          forall i | 0 <= i < |xs| ensures name(xs[i]) != n {
            if i > 0 { assert xs[i] == xs[1..][i - 1]; }
          }
        }
        r
  }

  /** A record found by name is the first record with that name. */
  lemma {:induction false} FindByNameFirst<T>(xs: seq<T>, name: T -> string, i: int)
    requires 0 <= i < |xs| && forall j :: 0 <= j < i ==> name(xs[j]) != name(xs[i])
    ensures FindByName(xs, name, name(xs[i])) == Some(xs[i])
  {
    var r := FindByName(xs, name, name(xs[i]));
    var k :| 0 <= k < |xs| && xs[k] == r.value && name(xs[k]) == name(xs[i]) &&
             forall j :: 0 <= j < k ==> name(xs[j]) != name(xs[i]);
    assert k == i;
  }
}
