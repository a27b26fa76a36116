/**
 * The reading of an inline `style` attribute as a list of `property:value;`
 * declarations. The renderer builds its style strings by concatenating such
 * declarations; this module is the independent reading those strings are
 * checked against.
 */
module InlineStyle {
  import opened Wrappers
  import opened Strings

  /** A declaration: property name and value. */
  datatype Decl = Decl(prop: string, value: string)

  /** `prop:value;`, the form every declaration of the renderer takes. */
  function Text(d: Decl): string {
    d.prop + ":" + d.value + ";"
  }

  function Render(ds: seq<Decl>): string {
    if ds == [] then "" else Text(ds[0]) + Render(ds[1..])
  }

  /** A declaration its own text can be read back from. */
  predicate WellFormed(d: Decl) {
    ':' !in d.prop && ';' !in d.prop && ';' !in d.value
  }

  /**
   * Splits `s` at each `;` and reads each piece as `prop:value` split at its
   * first `:`; a piece without `:` declares nothing.
   */
  function Parse(s: string): seq<Decl>
    decreases |s|
  {
    if s == [] then []
    else
      var i := IndexOf(s, ';');
      var piece := s[..i];
      var j := IndexOf(piece, ':');
      (if j < |piece| then [Decl(piece[..j], piece[j + 1..])] else [])
      + (if i < |s| then Parse(s[i + 1..]) else [])
  }

  lemma IndexOfAfter(a: string, c: char, b: string)
    requires c !in a
    ensures IndexOf(a + [c] + b, c) == |a|
  {
    assert (a + [c] + b)[|a|] == c;
  }

  lemma {:induction false} ParseRender(ds: seq<Decl>)
    requires forall k :: 0 <= k < |ds| ==> WellFormed(ds[k])
    ensures Parse(Render(ds)) == ds
  {
    if ds != [] {
      ParseText(ds[0], Render(ds[1..]));
      ParseRender(ds[1..]);
    }
  }

  /** Reading a declaration off the front of a style. */
  lemma ParseText(d: Decl, rest: string)
    requires WellFormed(d)
    ensures Parse(Text(d) + rest) == [d] + Parse(rest)
  {
    var s := Text(d) + rest;
    assert s == (d.prop + ":" + d.value) + [';'] + rest;
    IndexOfAfter(d.prop + ":" + d.value, ';', rest);
    var piece := s[..IndexOf(s, ';')];
    assert piece == d.prop + [':'] + d.value;
    IndexOfAfter(d.prop, ':', d.value);
    assert piece[..|d.prop|] == d.prop && piece[|d.prop| + 1..] == d.value;
    assert s[|piece| + 1..] == rest;
  }

  lemma {:induction false} RenderAppend(a: seq<Decl>, b: seq<Decl>)
    ensures Render(a + b) == Render(a) + Render(b)
  {
    if a == [] {
      assert a + b == b;
    } else {
      assert (a + b)[1..] == a[1..] + b;
      RenderAppend(a[1..], b);
    }
  }

  /** The value a browser applies for `prop`: the last declaration of it wins. */
  function Value(ds: seq<Decl>, prop: string): (r: Option<string>)
    ensures r.None? <==> forall k :: 0 <= k < |ds| ==> ds[k].prop != prop
    ensures r.Some? ==> exists k :: 0 <= k < |ds| && ds[k] == Decl(prop, r.value)
  {
    if ds == [] then None
    else if ds[|ds| - 1].prop == prop then Some(ds[|ds| - 1].value)
    else Value(ds[..|ds| - 1], prop)
  }

  /** The declaration at `k` decides `prop` when no later one declares it. */
  lemma {:induction false} ValueAt(ds: seq<Decl>, prop: string, k: nat)
    requires k < |ds| && ds[k].prop == prop
    requires forall j :: k < j < |ds| ==> ds[j].prop != prop
    ensures Value(ds, prop) == Some(ds[k].value)
  {
    if k < |ds| - 1 {
      ValueAt(ds[..|ds| - 1], prop, k);
    }
  }

  /** A character outside every property and value, other than `:` and `;`, is not in the text. */
  lemma {:induction false} RenderAvoids(ds: seq<Decl>, c: char)
    requires c != ':' && c != ';'
    requires forall k :: 0 <= k < |ds| ==> c !in ds[k].prop && c !in ds[k].value
    ensures c !in Render(ds)
  {
    if ds != [] {
      RenderAvoids(ds[1..], c);
    }
  }

  /** A property the appended declarations set takes its value from them. */
  lemma {:induction false} ValueTail(a: seq<Decl>, b: seq<Decl>, prop: string)
    requires Value(b, prop).Some?
    ensures Value(a + b, prop) == Value(b, prop)
  {
    var b' := b[..|b| - 1];
    assert (a + b)[|a + b| - 1] == b[|b| - 1];
    assert (a + b)[..|a + b| - 1] == a + b';
    if b[|b| - 1].prop != prop {
      ValueTail(a, b', prop);
    }
  }

  /** Declarations of other properties appended after `a` leave the value of `prop` alone. */
  lemma {:induction false} ValueSkips(a: seq<Decl>, b: seq<Decl>, prop: string)
    requires forall k :: 0 <= k < |b| ==> b[k].prop != prop
    ensures Value(a + b, prop) == Value(a, prop)
  {
    if b == [] {
      assert a + b == a;
    } else {
      var b' := b[..|b| - 1];
      assert (a + b)[..|a + b| - 1] == a + b';
      ValueSkips(a, b', prop);
    }
  }
}
