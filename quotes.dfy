/** The clean-up applied to every page the default template renders:
    `html.replace(/&quot;/g, '"')`, a global, left-to-right, non-overlapping
    replacement of the entity `&quot;` by a literal double quote. */
module Quotes {
  import opened Text

  /** The HTML entity for a double quote. */
  const Entity: string := "&quot;"

  /** `s` contains the entity at some position. */
  predicate ContainsEntity(s: string)
  {
    exists i :: 0 <= i < |s| && StartsWith(s[i..], Entity)
  }

  /** Number of positions at which the entity starts in `s`. */
  function CountEntity(s: string): nat
  {
    if s == [] then 0 else (if StartsWith(s, Entity) then 1 else 0) + CountEntity(s[1..])
  }

  /** The replacement as the regular-expression engine performs it: at each
      position, either the entity matches there and becomes `"`, or the
      character is kept and the scan moves one position on. */
  function FixQuotes(s: string): (r: string)
    ensures |r| <= |s|
  {
    if s == [] then []
    else if StartsWith(s, Entity) then "\"" + FixQuotes(s[|Entity|..])
    else [s[0]] + FixQuotes(s[1..])
  }

  /** What a template does to a literal double quote: it writes the entity. */
  function EscapeQuotes(u: string): (r: string)
    ensures '"' !in r
    ensures |r| == |u| + 5 * CountChar(u, '"')
  {
    if u == [] then []
    else (if u[0] == '"' then Entity else [u[0]]) + EscapeQuotes(u[1..])
  }

  /** A prefix without double quotes survives the fix only if it was
      already there in the input. */
  lemma {:induction false} FixQuotesPrefix(t: string, p: string)
    requires '"' !in p
    requires StartsWith(FixQuotes(t), p)
    ensures StartsWith(t, p)
  {
    if p != [] {
      var r := FixQuotes(t);
      assert r[0] == p[0];
      assert t != [] && !StartsWith(t, Entity);
      assert r == [t[0]] + FixQuotes(t[1..]);
      assert StartsWith(FixQuotes(t[1..]), p[1..]) by {
        assert FixQuotes(t[1..])[..|p| - 1] == r[1..|p|];
      }
      FixQuotesPrefix(t[1..], p[1..]);
      assert t[..|p|] == [t[0]] + t[1..][..|p| - 1];
    }
  }

  /** No entity is left in the output. */
  lemma {:induction false} FixQuotesRemovesEntity(s: string)
    ensures !ContainsEntity(FixQuotes(s))
  {
    if s != [] {
      var r := FixQuotes(s);
      if StartsWith(s, Entity) {
        var t := FixQuotes(s[|Entity|..]);
        FixQuotesRemovesEntity(s[|Entity|..]);
        assert r == "\"" + t;
        forall i | 0 <= i < |r| ensures !StartsWith(r[i..], Entity) {
          if i > 0 {
            assert r[i..] == t[i - 1..];
          } else {
            assert r[i..][0] == '"';
          }
        }
      } else {
        var t := FixQuotes(s[1..]);
        FixQuotesRemovesEntity(s[1..]);
        assert r == [s[0]] + t;
        forall i | 0 <= i < |r| ensures !StartsWith(r[i..], Entity) {
          if i > 0 {
            assert r[i..] == t[i - 1..];
          } else if StartsWith(r, Entity) {
            assert StartsWith(t, "quot;") by {
              assert t[..5] == r[1..6];
            }
            FixQuotesPrefix(s[1..], "quot;");
            assert false;
          }
        }
      }
    }
  }

  /** Text without the entity is returned unchanged. */
  lemma {:induction false} FixQuotesIdentity(s: string)
    requires !ContainsEntity(s)
    ensures FixQuotes(s) == s
  {
    if s != [] {
      assert s[0..] == s;
      assert !StartsWith(s, Entity);
      assert !ContainsEntity(s[1..]) by {
        forall i | 0 <= i < |s[1..]| ensures !StartsWith(s[1..][i..], Entity) {
          assert s[1..][i..] == s[i + 1..];
        }
      }
      FixQuotesIdentity(s[1..]);
    }
  }

  /** Applying the fix to its own output changes nothing. */
  lemma FixQuotesIdempotent(s: string)
    ensures FixQuotes(FixQuotes(s)) == FixQuotes(s)
  {
    FixQuotesRemovesEntity(s);
    FixQuotesIdentity(FixQuotes(s));
  }

  /** Every entity in the input becomes exactly one `"` at its place, and the
      text around it is fixed independently: no match can straddle an entity,
      because no proper suffix of `&quot;` is a prefix of it. */
  lemma {:induction false} FixQuotesSplit(a: string, b: string)
    ensures FixQuotes(a + Entity + b) == FixQuotes(a) + "\"" + FixQuotes(b)
  {
    var s := a + Entity + b;
    if a == [] {
      assert s == Entity + b;
      FixQuotesAfterEntity(b);
    } else {
      EntityAtStartOfSplit(a, b);
      if StartsWith(a, Entity) {
        var rest := a[|Entity|..];
        calc {
          FixQuotes(s);
          == { FixQuotesStep(s); }
          "\"" + FixQuotes(s[|Entity|..]);
          == { assert s[|Entity|..] == rest + Entity + b; FixQuotesSplit(rest, b); }
          "\"" + (FixQuotes(rest) + "\"" + FixQuotes(b));
          == { FixQuotesStep(a); }
          FixQuotes(a) + "\"" + FixQuotes(b);
        }
      } else {
        var rest := a[1..];
        calc {
          FixQuotes(s);
          == { FixQuotesStep(s); }
          [s[0]] + FixQuotes(s[1..]);
          == { assert s[1..] == rest + Entity + b; FixQuotesSplit(rest, b); }
          [a[0]] + (FixQuotes(rest) + "\"" + FixQuotes(b));
          == { FixQuotesStep(a); }
          FixQuotes(a) + "\"" + FixQuotes(b);
        }
      }
    }
  }

  /** One step of the scan. */
  lemma FixQuotesStep(s: string)
    requires s != []
    ensures FixQuotes(s) ==
      if StartsWith(s, Entity) then "\"" + FixQuotes(s[|Entity|..]) else [s[0]] + FixQuotes(s[1..])
  {
  }

  /** An entity in front of another one cannot overlap it: `a + Entity + b`
      starts with the entity exactly when `a` does. */
  lemma EntityAtStartOfSplit(a: string, b: string)
    requires a != []
    ensures StartsWith(a + Entity + b, Entity) <==> StartsWith(a, Entity)
  {
    var s := a + Entity + b;
    if |a| < |Entity| {
      assert s[|a|] == '&';
      assert !StartsWith(a, Entity);
    } else {
      assert s[..|Entity|] == a[..|Entity|];
    }
  }

  /** An entity at the start of the text counts once: none of the next five
      positions can start another. */
  lemma CountEntityAfterMatch(s: string)
    requires StartsWith(s, Entity)
    ensures CountEntity(s) == 1 + CountEntity(s[|Entity|..])
  {
    assert s[..6] == Entity;
    CountEntityNoAmpersand(s[1..]);
    assert s[1..][1..] == s[2..];
    CountEntityNoAmpersand(s[2..]);
    assert s[2..][1..] == s[3..];
    CountEntityNoAmpersand(s[3..]);
    assert s[3..][1..] == s[4..];
    CountEntityNoAmpersand(s[4..]);
    assert s[4..][1..] == s[5..];
    CountEntityNoAmpersand(s[5..]);
    assert s[5..][1..] == s[6..];
  }

  lemma CountEntityNoAmpersand(s: string)
    requires s != [] && s[0] != '&'
    ensures CountEntity(s) == CountEntity(s[1..])
  {
  }

  /** Each entity shrinks the text by five characters and adds one `"`. */
  lemma {:induction false} FixQuotesCounts(s: string)
    ensures |FixQuotes(s)| + 5 * CountEntity(s) == |s|
    ensures CountChar(FixQuotes(s), '"') == CountChar(s, '"') + CountEntity(s)
  {
    if s != [] {
      if StartsWith(s, Entity) {
        CountEntityAfterMatch(s);
        FixQuotesCounts(s[|Entity|..]);
        CountCharAppend(Entity, s[|Entity|..], '"');
        assert s == Entity + s[|Entity|..];
        assert CountChar(Entity, '"') == 0;
        CountCharAppend("\"", FixQuotes(s[|Entity|..]), '"');
      } else {
        FixQuotesCounts(s[1..]);
        CountCharAppend([s[0]], FixQuotes(s[1..]), '"');
      }
    }
  }

  /** Undoing what the template did: for text without `&`, the fix turns the
      entities a template wrote back into the original double quotes. */
  lemma {:induction false} FixQuotesUndoesEscape(u: string)
    requires NoAmpersand(u)
    ensures FixQuotes(EscapeQuotes(u)) == u
  {
    if u != [] {
      var rest := EscapeQuotes(u[1..]);
      assert NoAmpersand(u[1..]) by {
        forall i | 0 <= i < |u[1..]| ensures u[1..][i] != '&' { assert u[1..][i] == u[i + 1]; }
      }
      FixQuotesUndoesEscape(u[1..]);
      assert FixQuotes(rest) == u[1..];
      if u[0] == '"' {
        FixQuotesAfterEntity(rest);
      } else {
        FixQuotesAfterPlain(u[0], rest);
      }
      assert [u[0]] + u[1..] == u;
    }
  }

  predicate NoAmpersand(u: string)
  {
    forall i :: 0 <= i < |u| ==> u[i] != '&'
  }

  lemma FixQuotesAfterEntity(rest: string)
    ensures FixQuotes(Entity + rest) == "\"" + FixQuotes(rest)
  {
    assert StartsWith(Entity + rest, Entity);
    assert (Entity + rest)[|Entity|..] == rest;
  }

  lemma FixQuotesAfterPlain(c: char, rest: string)
    requires c != '&'
    ensures FixQuotes([c] + rest) == [c] + FixQuotes(rest)
  {
    assert ([c] + rest)[1..] == rest;
  }

  /** A page holding `&quot;value&quot;` comes back as `"value"`. */
  lemma FixQuotesValue()
    ensures FixQuotes("&quot;value&quot;") == "\"value\""
  {
    assert "&quot;value&quot;" == [] + Entity + ("value" + Entity + []);
    FixQuotesSplit([], "value" + Entity + []);
    FixQuotesSplit("value", []);
    assert !ContainsEntity("value");
    FixQuotesIdentity("value");
  }
}
