/** The string keys under which data points with the same labels are grouped. */
module LabelKeys {
  import opened Go
  import opened Pdata

  /** A label set with its values rendered by `AsString`. */
  type Labels = map<string, string>

  function Strings(attrs: Attributes): Labels {
    map k | k in attrs :: AsString(attrs[k])
  }

  function Without(labels: Labels, excluding: seq<string>): Labels {
    map k | k in labels && k !in excluding :: labels[k]
  }

  /** One label of a key. */
  function Render(k: string, v: string): string {
    k + "=" + v
  }

  /** The rendered labels of some of the names, in some order. */
  ghost function Rendered(labels: Labels, ks: set<string>): seq<string>
    requires ks <= labels.Keys
  {
    if ks == {} then []
    else
      var k :| k in ks;
      Rendered(labels, ks - {k}) + [Render(k, labels[k])]
  }

  /** The key of a label set: its rendered labels sorted and joined. */
  ghost function KeyOf(labels: Labels): string {
    Join(Sort(Rendered(labels, labels.Keys)), ";")
  }

  lemma Appended(ss: seq<string>, x: string)
    ensures multiset(ss + [x]) == multiset(ss) + multiset{x}
  {
  }

  /** The order in which labels are rendered does not matter: any one of them may come last. */
  lemma {:induction false} RenderedAnyOrder(labels: Labels, ks: set<string>, k: string)
    requires ks <= labels.Keys && k in ks
    ensures multiset(Rendered(labels, ks))
         == multiset(Rendered(labels, ks - {k})) + multiset{Render(k, labels[k])}
    decreases ks
  {
    var j :| j in ks && Rendered(labels, ks) == Rendered(labels, ks - {j}) + [Render(j, labels[j])];
    Appended(Rendered(labels, ks - {j}), Render(j, labels[j]));
    if j != k {
      RenderedAnyOrder(labels, ks - {j}, k);
      RenderedAnyOrder(labels, ks - {k}, j);
      assert ks - {j} - {k} == ks - {k} - {j};
    }
  }

  lemma RenderOneMore(labels: Labels, done: set<string>, k: string, ss: seq<string>)
    requires done <= labels.Keys && k in labels && k !in done
    requires multiset(ss) == multiset(Rendered(labels, done))
    ensures multiset(ss + [Render(k, labels[k])]) == multiset(Rendered(labels, done + {k}))
  {
    RenderedAnyOrder(labels, done + {k}, k);
    assert done + {k} - {k} == done;
    Appended(ss, Render(k, labels[k]));
  }

  lemma KeyOfRendered(labels: Labels, ss: seq<string>)
    requires multiset(ss) == multiset(Rendered(labels, labels.Keys))
    ensures Join(Sort(ss), ";") == KeyOf(labels)
  {
    SortIsCanonical(ss, Rendered(labels, labels.Keys));
  }

  /** `Range` visits the labels in an order of its own; the key is that of the label set whatever the order. */
  method LabelsAsKey(labels: Attributes) returns (key: string)
    ensures key == KeyOf(Strings(labels))
  {
    var otherLabels: seq<string> := [];
    var rest := labels.Keys;
    ghost var all := Strings(labels);
    ghost var done: set<string> := {};
    assert Rendered(all, {}) == [];
    hide Rendered, Render, AsString;
    while rest != {}
      invariant rest <= labels.Keys && done <= all.Keys && forall k | k in all :: k in done <==> k !in rest
      invariant multiset(otherLabels) == multiset(Rendered(all, done))
      decreases rest
    {
      var k :| k in rest;
      RenderOneMore(all, done, k, otherLabels);
      otherLabels := otherLabels + [Render(k, AsString(labels[k]))];
      done, rest := done + {k}, rest - {k};
    }
    assert done == all.Keys;
    KeyOfRendered(all, otherLabels);
    key := Join(Sort(otherLabels), ";");
  }

  /** The `Range` loop of `otherLabelsAsKey`. */
  method RenderOthers(labels: Attributes, excluding: seq<string>) returns (otherLabels: seq<string>)
    ensures var others := Without(Strings(labels), excluding);
            multiset(otherLabels) == multiset(Rendered(others, others.Keys)) && |otherLabels| == |others.Keys|
  {
    otherLabels := [];
    var rest := labels.Keys;
    ghost var all := Without(Strings(labels), excluding);
    ghost var done: set<string> := {};
    assert Rendered(all, {}) == [];
    hide Rendered, Render, AsString;
    while rest != {}
      invariant rest <= labels.Keys && done <= all.Keys && forall k | k in all :: k in done <==> k !in rest
      invariant multiset(otherLabels) == multiset(Rendered(all, done))
      invariant |otherLabels| == |done|
      decreases rest
    {
      var k :| k in rest;
      if k !in excluding {
        RenderOneMore(all, done, k, otherLabels);
        otherLabels := otherLabels + [Render(k, AsString(labels[k]))];
        done := done + {k};
      }
      rest := rest - {k};
    }
    assert done == all.Keys;
  }

  /**
   The key of the other labels, or an error if one of the excluded labels is missing. With fewer labels than
   exclusions the source asks for a slice of negative capacity and panics.
   */
  method OtherLabelsAsKey(labels: Attributes, excluding: seq<string>) returns (r: Result<string>)
    requires |labels| >= |excluding|
    ensures r.Err? <==> |Without(Strings(labels), excluding)| > |labels| - |excluding|
    ensures r.Ok? ==> r.value == KeyOf(Without(Strings(labels), excluding))
  {
    var otherLabels := RenderOthers(labels, excluding);
    if |otherLabels| > |labels| - |excluding| {
      return Err("label set did not include all expected labels");
    }
    KeyOfRendered(Without(Strings(labels), excluding), otherLabels);
    return Ok(Join(Sort(otherLabels), ";"));
  }

  /** With no exclusions there is no error and the two key builders agree. */
  lemma NothingExcluded(attrs: Attributes)
    ensures Without(Strings(attrs), []) == Strings(attrs) && |Strings(attrs)| == |attrs|
  {
    assert Without(Strings(attrs), []) == Strings(attrs);
    assert Strings(attrs).Keys == attrs.Keys;
  }

  /** With one exclusion the error says exactly that this label is missing. */
  lemma OneExcluded(attrs: Attributes, name: string)
    ensures |Without(Strings(attrs), [name])| > |attrs| - 1 <==> name !in attrs
  {
    var others := Without(Strings(attrs), [name]);
    assert others.Keys == attrs.Keys - {name};
    assert |others| == |others.Keys| && |attrs| == |attrs.Keys|;
  }

  // ------------------------------------------------------------------
  // When keys tell label sets apart
  // ------------------------------------------------------------------

  predicate Free(s: string, c: char) {
    forall i | 0 <= i < |s| :: s[i] != c
  }

  /** Names without '=', values without ';'. */
  predicate Unambiguous(labels: Labels) {
    forall k | k in labels :: Free(k, '=') && Free(labels[k], ';')
  }

  /** The length of the part of `s` before the first `c`. */
  function Before(s: string, c: char): (n: nat)
    ensures n <= |s|
  {
    if s != [] && s[0] != c then 1 + Before(s[1..], c) else 0
  }

  lemma {:induction false} BeforeSeparator(p: string, c: char, rest: string)
    requires Free(p, c) && (rest == [] || rest[0] == c)
    ensures Before(p + rest, c) == |p|
  {
    if p != [] {
      assert (p + rest)[1..] == p[1..] + rest;
      BeforeSeparator(p[1..], c, rest);
    } else {
      assert p + rest == rest;
    }
  }

  /** A rendered label reads back as its name and value. */
  lemma RenderIsInjective(k: string, v: string, k': string, v': string)
    requires Free(k, '=') && Free(k', '=') && Render(k, v) == Render(k', v')
    ensures k == k' && v == v'
  {
    BeforeSeparator(k, '=', "=" + v);
    BeforeSeparator(k', '=', "=" + v');
    assert Render(k, v) == k + ("=" + v) && Render(k', v') == k' + ("=" + v');
    assert k == Render(k, v)[..|k|] && k' == Render(k', v')[..|k'|];
    assert v == Render(k, v)[|k| + 1..] && v' == Render(k', v')[|k'| + 1..];
  }

  /** A label has a '=', and no ';' behind the first one: its name may have some. */
  predicate IsLabel(s: string) {
    Before(s, '=') < |s| && Free(s[Before(s, '=')..], ';')
  }

  predicate Parts(ss: seq<string>) {
    forall i | 0 <= i < |ss| :: IsLabel(ss[i])
  }

  /** Where a label ends that a text starts with: at the first ';' behind the first '='. */
  function LabelLength(s: string): (n: nat)
    ensures n <= |s|
  {
    var n := Before(s, '=');
    n + Before(s[n..], ';')
  }

  lemma {:induction false} BeforeIsLocal(p: string, c: char, rest: string)
    requires Before(p, c) < |p|
    ensures Before(p + rest, c) == Before(p, c)
  {
    if p[0] != c {
      assert (p + rest)[1..] == p[1..] + rest;
      BeforeIsLocal(p[1..], c, rest);
    }
  }

  lemma LabelIsRead(p: string, rest: string)
    requires IsLabel(p) && (rest == [] || rest[0] == ';')
    ensures LabelLength(p + rest) == |p|
  {
    hide Before;
    var n := Before(p, '=');
    BeforeIsLocal(p, '=', rest);
    assert (p + rest)[n..] == p[n..] + rest;
    BeforeSeparator(p[n..], ';', rest);
  }

  lemma RenderIsLabel(k: string, v: string)
    requires Free(k, '=') && Free(v, ';')
    ensures IsLabel(Render(k, v))
  {
    BeforeSeparator(k, '=', "=" + v);
    assert Render(k, v) == k + ("=" + v);
    assert Render(k, v)[|k|..] == "=" + v;
  }

  /** What the join of some labels starts with. */
  lemma JoinStarts(ss: seq<string>)
    requires Parts(ss) && ss != []
    ensures LabelLength(Join(ss, ";")) == |ss[0]|
    ensures Join(ss, ";")[..|ss[0]|] == ss[0] && ss[0] != []
    ensures |ss| == 1 ==> Join(ss, ";") == ss[0]
    ensures |ss| > 1 ==> |Join(ss, ";")| > |ss[0]| && Join(ss, ";")[|ss[0]| + 1..] == Join(ss[1..], ";")
  {
    var rest := if |ss| == 1 then [] else ";" + Join(ss[1..], ";");
    assert Join(ss, ";") == ss[0] + rest;
    LabelIsRead(ss[0], rest);
    hide LabelLength, Join, Before;
  }

  lemma {:induction false} JoinIsInjective(a: seq<string>, b: seq<string>)
    requires Parts(a) && Parts(b) && Join(a, ";") == Join(b, ";")
    ensures a == b
  {
    if a != [] && b != [] {
      JoinStarts(a);
      JoinStarts(b);
      assert a == [a[0]] + a[1..] && b == [b[0]] + b[1..];
      if |a| > 1 && |b| > 1 {
        JoinIsInjective(a[1..], b[1..]);
      }
    } else if a != [] {
      JoinStarts(a);
    } else if b != [] {
      JoinStarts(b);
    }
  }

  lemma {:induction false} RenderedMembers(labels: Labels, ks: set<string>, s: string)
    requires ks <= labels.Keys
    ensures s in Rendered(labels, ks) <==> exists k :: k in ks && s == Render(k, labels[k])
    decreases ks
  {
    if ks != {} {
      var j :| j in ks && Rendered(labels, ks) == Rendered(labels, ks - {j}) + [Render(j, labels[j])];
      RenderedMembers(labels, ks - {j}, s);
      if k :| k in ks && s == Render(k, labels[k]) {
        assert k == j || k in ks - {j};
      }
    }
  }

  lemma RenderedParts(labels: Labels, ss: seq<string>)
    requires Unambiguous(labels) && multiset(ss) == multiset(Rendered(labels, labels.Keys))
    ensures Parts(ss)
  {
    hide IsLabel, Free;
    forall i | 0 <= i < |ss| ensures IsLabel(ss[i]) {
      assert ss[i] in multiset(Rendered(labels, labels.Keys));
      RenderedMembers(labels, labels.Keys, ss[i]);
      var k :| k in labels && ss[i] == Render(k, labels[k]);
      RenderIsLabel(k, labels[k]);
    }
  }

  lemma SameRenderedSameLabel(a: Labels, b: Labels, k: string)
    requires Unambiguous(a) && Unambiguous(b) && multiset(Rendered(a, a.Keys)) == multiset(Rendered(b, b.Keys)) && k in a
    ensures k in b && b[k] == a[k]
  {
    var s := Render(k, a[k]);
    RenderedMembers(a, a.Keys, s);
    assert s in multiset(Rendered(b, b.Keys));
    RenderedMembers(b, b.Keys, s);
    var k' :| k' in b && s == Render(k', b[k']);
    RenderIsInjective(k, a[k], k', b[k']);
  }

  /** Of unambiguous label sets, two have the same key exactly when they are the same. */
  lemma KeysAreCanonical(a: Labels, b: Labels)
    requires Unambiguous(a) && Unambiguous(b)
    ensures KeyOf(a) == KeyOf(b) <==> a == b
  {
    if KeyOf(a) == KeyOf(b) {
      SortIsSorted(Rendered(a, a.Keys));
      SortIsSorted(Rendered(b, b.Keys));
      RenderedParts(a, Sort(Rendered(a, a.Keys)));
      RenderedParts(b, Sort(Rendered(b, b.Keys)));
      JoinIsInjective(Sort(Rendered(a, a.Keys)), Sort(Rendered(b, b.Keys)));
      forall k | k in a ensures k in b && b[k] == a[k] {
        SameRenderedSameLabel(a, b, k);
      }
      forall k | k in b ensures k in a {
        SameRenderedSameLabel(b, a, k);
      }
    }
  }

  lemma KeyOfOne(k: string, v: string)
    ensures KeyOf(map[k := v]) == Render(k, v)
  {
    var m: Labels := map[k := v];
    var ss := [Render(k, v)];
    RenderOneMore(m, {}, k, []);
    assert [] + ss == ss && {} + {k} == m.Keys;
    KeyOfRendered(m, ss);
    assert Sort(ss) == ss;
  }

  /** Every name with a '=' collides with the name before it, whatever the value. */
  lemma EqualsSignCollides(k: string, k': string, v: string)
    ensures KeyOf(map[k + "=" + k' := v]) == KeyOf(map[k := k' + "=" + v])
    ensures var a: Labels, b: Labels := map[k + "=" + k' := v], map[k := k' + "=" + v];
            a != b
  {
    KeyOfOne(k + "=" + k', v);
    KeyOfOne(k, k' + "=" + v);
    assert Render(k + "=" + k', v) == Render(k, k' + "=" + v);
    var a: Labels, b: Labels := map[k + "=" + k' := v], map[k := k' + "=" + v];
    assert |k + "=" + k'| > |k|;
    assert k in b && k !in a;
  }

  lemma SortOfTwo(a: string, b: string)
    requires StringLess(a, b)
    ensures Sort([a, b]) == [a, b]
  {
    var one: seq<string> := [b];
    assert [a, b][1..] == one && one[1..] == [];
    assert Sort(one) == one;
  }

  lemma KeyOfTwo(k: string, v: string, k': string, v': string)
    requires k != k' && StringLess(Render(k, v), Render(k', v'))
    ensures KeyOf(map[k := v, k' := v']) == Render(k, v) + ";" + Render(k', v')
  {
    var m: Labels := map[k := v, k' := v'];
    var a, b := Render(k, v), Render(k', v');
    RenderOneMore(m, {}, k, []);
    assert [] + [a] == [a] && {} + {k} == {k} && [a] + [b] == [a, b] && {k} + {k'} == m.Keys;
    RenderOneMore(m, {k}, k', [a]);
    KeyOfRendered(m, [a, b]);
    SortOfTwo(a, b);
    assert [a, b][1..] == [b];
  }

  /** Every value that has another label behind a ';' collides with the two labels, if they sort that way round. */
  lemma SemicolonCollides(k: string, v: string, k': string, v': string)
    requires k != k' && StringLess(Render(k, v), Render(k', v'))
    ensures KeyOf(map[k := v + ";" + Render(k', v')]) == KeyOf(map[k := v, k' := v'])
    ensures var a: Labels, b: Labels := map[k := v + ";" + Render(k', v')], map[k := v, k' := v'];
            a != b
  {
    KeyOfOne(k, v + ";" + Render(k', v'));
    KeyOfTwo(k, v, k', v');
    hide StringLess, Sort, Rendered;
    assert Render(k, v + ";" + Render(k', v')) == Render(k, v) + ";" + Render(k', v');
    var a: Labels, b: Labels := map[k := v + ";" + Render(k', v')], map[k := v, k' := v'];
    assert k' in b && k' !in a;
  }

  /** Without its ';' the value of "a" below is a label of its own. */
  lemma SemicolonCollision()
    ensures KeyOf(map["a" := "1;b=2"]) == KeyOf(map["a" := "1", "b" := "2"])
  {
    assert Render("a", "1")[0] == 'a' && Render("b", "2")[0] == 'b';
    SemicolonCollides("a", "1", "b", "2");
    assert "1" + ";" + Render("b", "2") == "1;b=2";
  }
}
