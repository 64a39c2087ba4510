/**
  The host compiler's data, as far as the analyzer and the code fix read it:
  a resolved symbol with its attributes, and a source document as a sequence
  of tokens. Symbol binding and syntax trees themselves belong to the host.
 */
module Symbols {
  import opened Wrappers

  /** The display name of the attribute class the rule looks for. */
  const ObsoleteAttributeName: string := "System.ObsoleteAttribute"

  /** An attribute application: its class's display name (None when the
      class does not resolve) and the `Value?.ToString()` of each constructor
      argument (None for a null value). */
  datatype Attribute = Attribute(attributeClass: Option<string>, constructorArguments: seq<Option<string>>)

  /** A resolved symbol: its simple name and its attributes in declaration order. */
  datatype Symbol = Symbol(name: string, attributes: seq<Attribute>)

  /** A token of the document. `Identifier` is an identifier-name node, a
      use of a name; the identifier a declaration introduces
      (`public string OldProp { get; set; }`), keywords, trivia and
      punctuation are `Other` tokens. */
  datatype Token = Identifier(name: string) | Other(text: string)

  /** The node found at a diagnostic's span: an identifier name over one token, or anything else. */
  datatype SyntaxNode = IdentifierName(token: nat) | OtherNode

  predicate IsObsolete(attr: Attribute) {
    attr.attributeClass == Some(ObsoleteAttributeName)
  }

  /** `ConstructorArguments.FirstOrDefault().Value?.ToString()`: the first
      argument's text, or None when there is no argument or it is null. */
  function FirstArgument(attr: Attribute): Option<string> {
    if |attr.constructorArguments| == 0 then None else attr.constructorArguments[0]
  }

  /** The positions of the obsolete attributes, in increasing order. */
  function ObsoleteIndices(attrs: seq<Attribute>): (idx: seq<nat>)
    ensures forall k :: 0 <= k < |idx| ==> idx[k] < |attrs| && IsObsolete(attrs[idx[k]])
    ensures |idx| <= |attrs|
  {
    if attrs == [] then []
    else
      var n := |attrs| - 1;
      ObsoleteIndices(attrs[..n]) + (if IsObsolete(attrs[n]) then [n] else [])
  }

  /** The obsolete positions are strictly increasing. */
  lemma {:induction false} ObsoleteIndicesSorted(attrs: seq<Attribute>)
    ensures forall j, k :: 0 <= j < k < |ObsoleteIndices(attrs)| ==> ObsoleteIndices(attrs)[j] < ObsoleteIndices(attrs)[k]
  {
    if attrs != [] {
      var n := |attrs| - 1;
      ObsoleteIndicesSorted(attrs[..n]);
      var init, idx := ObsoleteIndices(attrs[..n]), ObsoleteIndices(attrs);
      assert idx == init + (if IsObsolete(attrs[n]) then [n] else []);
      forall j, k | 0 <= j < k < |idx|
        ensures idx[j] < idx[k]
      {
        assert idx[j] == init[j];
        if k < |init| {
          assert idx[k] == init[k];
        } else {
          assert idx[k] == n;
        }
      }
    }
  }

  /** Every obsolete position is listed. */
  lemma {:induction false} ObsoleteIndicesComplete(attrs: seq<Attribute>)
    ensures forall i :: 0 <= i < |attrs| && IsObsolete(attrs[i]) ==> i in ObsoleteIndices(attrs)
  {
    if attrs != [] {
      var n := |attrs| - 1;
      ObsoleteIndicesComplete(attrs[..n]);
      var init, idx := ObsoleteIndices(attrs[..n]), ObsoleteIndices(attrs);
      assert idx == init + (if IsObsolete(attrs[n]) then [n] else []);
      forall i | 0 <= i < |attrs| && IsObsolete(attrs[i])
        ensures i in idx
      {
        if i < n {
          assert attrs[..n][i] == attrs[i];
          var k :| 0 <= k < |init| && init[k] == i;
          assert idx[k] == i;
        } else {
          assert idx[|idx| - 1] == n;
        }
      }
    }
  }

  /** Every position moved one further on. */
  function Advance(idx: seq<nat>): (moved: seq<nat>)
    ensures |moved| == |idx|
  {
    if idx == [] then [] else Advance(idx[..|idx| - 1]) + [idx[|idx| - 1] + 1]
  }

  /** Each position of an advanced sequence is one further on. */
  lemma {:induction false} AdvanceAt(idx: seq<nat>, k: nat)
    requires k < |idx|
    ensures Advance(idx)[k] == idx[k] + 1
    decreases |idx|
  {
    var n := |idx| - 1;
    if k < n {
      AdvanceAt(idx[..n], k);
    }
  }

  /** Past a leading attribute that is not obsolete, the obsolete positions
      are those of the rest, each one further on. */
  lemma {:induction false} ObsoleteIndicesShift(attrs: seq<Attribute>)
    requires attrs != [] && !IsObsolete(attrs[0])
    ensures ObsoleteIndices(attrs) == Advance(ObsoleteIndices(attrs[1..]))
    decreases |attrs|
  {
    var n := |attrs| - 1;
    if n == 0 {
      assert attrs[..0] == [] && attrs[1..] == [];
    } else {
      ObsoleteIndicesShift(attrs[..n]);
      assert attrs == attrs[..n] + [attrs[n]];
      ShiftStep(attrs[..n], attrs[n]);
    }
  }

  /** The inductive step of the shift: one more attribute at the end. */
  lemma ShiftStep(init: seq<Attribute>, a: Attribute)
    requires init != [] && !IsObsolete(init[0])
    requires ObsoleteIndices(init) == Advance(ObsoleteIndices(init[1..]))
    ensures ObsoleteIndices(init + [a]) == Advance(ObsoleteIndices((init + [a])[1..]))
  {
    var tail := init[1..];
    var m := |tail|;
    assert (init + [a])[1..] == tail + [a];
    ObsoleteIndicesSnoc(init, a);
    ObsoleteIndicesSnoc(tail, a);
    if IsObsolete(a) {
      AdvanceSnoc(ObsoleteIndices(tail), m);
    }
  }

  /** Appending an attribute appends its position when it is obsolete. */
  lemma ObsoleteIndicesSnoc(attrs: seq<Attribute>, a: Attribute)
    ensures IsObsolete(a) ==> ObsoleteIndices(attrs + [a]) == ObsoleteIndices(attrs) + [|attrs|]
    ensures !IsObsolete(a) ==> ObsoleteIndices(attrs + [a]) == ObsoleteIndices(attrs)
  {
    assert (attrs + [a])[..|attrs|] == attrs;
  }

  /** Advancing commutes with appending one position. */
  lemma AdvanceSnoc(idx: seq<nat>, x: nat)
    ensures Advance(idx + [x]) == Advance(idx) + [x + 1]
  {
    assert (idx + [x])[..|idx|] == idx;
  }

  /** The first obsolete attribute is the one at the first obsolete index. */
  lemma FirstObsoleteIndex(attrs: seq<Attribute>)
    requires ObsoleteIndices(attrs) != []
    ensures forall j :: 0 <= j < ObsoleteIndices(attrs)[0] ==> !IsObsolete(attrs[j])
  {
    ObsoleteIndicesSorted(attrs);
    ObsoleteIndicesComplete(attrs);
  }
}
