/** `ramlObj.securitySchemeWithName(name)`: the helper the default renderer
    attaches to the document. The document's security schemes are an ordered
    list of single-entry objects `{ schemeName: definition }`; the helper
    scans them in order and returns the first truthy definition stored
    under `name`, or `undefined`. */
module SecuritySchemes {
  import opened JsValues

  /** One entry of `ramlObj.securitySchemes`. */
  type SchemeEntry = map<string, JsValue>

  /** Some entry holds a truthy definition under `name`. */
  predicate Declared(schemes: seq<SchemeEntry>, name: string)
  {
    exists i :: 0 <= i < |schemes| && Truthy(Member(schemes[i], name))
  }

  /** The definition the lookup specifies: the one from the lowest-index
      entry holding a truthy value under `name`, `undefined` when there is none. */
  function FirstTruthy(schemes: seq<SchemeEntry>, name: string): (r: JsValue)
    ensures Truthy(r) || r == Undefined
    ensures r == Undefined <==> !Declared(schemes, name)
    ensures r != Undefined ==>
      exists i :: 0 <= i < |schemes| && r == Member(schemes[i], name) &&
        forall j :: 0 <= j < i ==> !Truthy(Member(schemes[j], name))
  {
    if schemes == [] then Undefined
    else if Truthy(Member(schemes[0], name)) then
      Member(schemes[0], name)
    else
      var r := FirstTruthy(schemes[1..], name);
      assert Declared(schemes, name) ==> Declared(schemes[1..], name) by {
        if Declared(schemes, name) {
          var i :| 0 <= i < |schemes| && Truthy(Member(schemes[i], name));
          assert schemes[1..][i - 1] == schemes[i];
        }
      }
      assert Declared(schemes[1..], name) ==> Declared(schemes, name) by {
        if Declared(schemes[1..], name) {
          var i :| 0 <= i < |schemes[1..]| && Truthy(Member(schemes[1..][i], name));
          assert schemes[i + 1] == schemes[1..][i];
        }
      }
      if r != Undefined then
        var i :| 0 <= i < |schemes[1..]| && r == Member(schemes[1..][i], name) &&
          forall j :: 0 <= j < i ==> !Truthy(Member(schemes[1..][j], name));
        assert r == Member(schemes[i + 1], name);
        assert forall j :: 0 <= j < i + 1 ==> !Truthy(Member(schemes[j], name)) by {
          forall j | 0 <= j < i + 1 ensures !Truthy(Member(schemes[j], name)) {
            if j > 0 { assert schemes[j] == schemes[1..][j - 1]; }
          }
        }
        r
      else
        r
  }

  /** The helper as the source writes it: an index loop with an early return. */
  method SecuritySchemeWithName(schemes: seq<SchemeEntry>, name: string) returns (r: JsValue)
    ensures r == FirstTruthy(schemes, name)
  {
    var i := 0;
    while i < |schemes|
      invariant 0 <= i <= |schemes|
      invariant FirstTruthy(schemes[i..], name) == FirstTruthy(schemes, name)
    {
      if Truthy(Member(schemes[i], name)) {
        return Member(schemes[i], name);
      }
      assert schemes[i..][1..] == schemes[i + 1..];
      i := i + 1;
    }
    return Undefined;
  }

  /** Entries after the first match are never consulted: appending entries,
      or changing any entry after it, leaves the result alone. */
  lemma {:induction false} FirstTruthyIgnoresLater(a: seq<SchemeEntry>, b: seq<SchemeEntry>, name: string)
    requires Declared(a, name)
    ensures FirstTruthy(a + b, name) == FirstTruthy(a, name)
  {
    if !Truthy(Member(a[0], name)) {
      assert (a + b)[1..] == a[1..] + b;
      var i :| 0 <= i < |a| && Truthy(Member(a[i], name));
      assert a[1..][i - 1] == a[i];
      FirstTruthyIgnoresLater(a[1..], b, name);
    }
  }

  /** Entries before any match only delay the search: when `a` declares
      nothing under `name`, the result is decided by `b` alone. */
  lemma {:induction false} FirstTruthySkipsUndeclared(a: seq<SchemeEntry>, b: seq<SchemeEntry>, name: string)
    requires !Declared(a, name)
    ensures FirstTruthy(a + b, name) == FirstTruthy(b, name)
  {
    if a != [] {
      assert !Truthy(Member(a[0], name));
      assert (a + b)[1..] == a[1..] + b;
      assert !Declared(a[1..], name) by {
        forall i | 0 <= i < |a[1..]| ensures !Truthy(Member(a[1..][i], name)) {
          assert a[1..][i] == a[i + 1];
        }
      }
      FirstTruthySkipsUndeclared(a[1..], b, name);
    } else {
      assert a + b == b;
    }
  }

  /** Two entries with distinct names, `[{first: d1}, {second: d2}]`: each
      name finds its own definition, any other name finds `undefined`. */
  lemma LookupTwoSchemes(first: string, d1: JsValue, second: string, d2: JsValue, other: string)
    requires first != second && Truthy(d1) && Truthy(d2)
    requires other != first && other != second
    ensures FirstTruthy([map[first := d1], map[second := d2]], first) == d1
    ensures FirstTruthy([map[first := d1], map[second := d2]], second) == d2
    ensures FirstTruthy([map[first := d1], map[second := d2]], other) == Undefined
  {
  }
}
