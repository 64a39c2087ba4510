/**
  Fix-all through the batch fixer, over a whole document: the analyzer run on
  every identifier token, one rename per token the provider registers a fix
  for, and the renames applied together.
 */
module FixAll {
  import opened Wrappers
  import opened Symbols
  import opened Analyzer
  import opened CodeFix
  import opened DotNetStrings

  /** One rename: the identifier token at `position` becomes `newName`. */
  datatype Edit = Edit(position: nat, newName: string)

  /** Every edit targets an identifier token of the document. */
  predicate EditsApply(document: seq<Token>, edits: seq<Edit>) {
    forall k :: 0 <= k < |edits| ==> edits[k].position < |document| && document[edits[k].position].Identifier?
  }

  /** No two edits rename the same token differently. */
  predicate NonConflicting(edits: seq<Edit>) {
    forall j, k :: 0 <= j < |edits| && 0 <= k < |edits| && edits[j].position == edits[k].position ==> edits[j] == edits[k]
  }

  /** The edits applied one after another, in the order given. */
  function ApplyAll(document: seq<Token>, edits: seq<Edit>): (result: seq<Token>)
    requires EditsApply(document, edits)
    ensures |result| == |document|
    decreases |edits|
  {
    if edits == [] then document
    else
      var next := WithIdentifierAt(document, edits[0].position, edits[0].newName);
      assert EditsApply(next, edits[1..]);
      ApplyAll(next, edits[1..])
  }

  /** After the edits, a token some edit targets carries that edit's name and
      every other token is as it was. */
  lemma {:induction false} ApplyAllPointwise(document: seq<Token>, edits: seq<Edit>, i: nat)
    requires EditsApply(document, edits) && NonConflicting(edits) && i < |document|
    ensures (forall k :: 0 <= k < |edits| ==> edits[k].position != i) ==> ApplyAll(document, edits)[i] == document[i]
    ensures forall k :: 0 <= k < |edits| && edits[k].position == i ==> ApplyAll(document, edits)[i] == Identifier(edits[k].newName)
    decreases |edits|
  {
    if edits != [] {
      var next := WithIdentifierAt(document, edits[0].position, edits[0].newName);
      assert EditsApply(next, edits[1..]);
      ApplyAllPointwise(next, edits[1..], i);
      forall k | 0 <= k < |edits| && edits[k].position == i
        ensures ApplyAll(document, edits)[i] == Identifier(edits[k].newName)
      {
        if k > 0 {
          assert edits[1..][k - 1] == edits[k];
        } else if exists m :: 0 <= m < |edits[1..]| && edits[1..][m].position == i {
          var m :| 0 <= m < |edits[1..]| && edits[1..][m].position == i;
          assert edits[m + 1] == edits[0];
        }
      }
    }
  }

  /** The batch fixer's result does not depend on the order of its edits:
      any reordering with the same edits gives the same document. */
  lemma ApplyAllOrderIndependent(document: seq<Token>, edits: seq<Edit>, reordered: seq<Edit>)
    requires EditsApply(document, edits) && NonConflicting(edits)
    requires forall e :: e in edits <==> e in reordered
    ensures EditsApply(document, reordered) && NonConflicting(reordered)
    ensures ApplyAll(document, edits) == ApplyAll(document, reordered)
  {
    assert forall k :: 0 <= k < |reordered| ==> reordered[k] in edits;
    assert EditsApply(document, reordered);
    assert NonConflicting(reordered) by {
      forall j, k | 0 <= j < |reordered| && 0 <= k < |reordered| && reordered[j].position == reordered[k].position
        ensures reordered[j] == reordered[k]
      {
        assert reordered[j] in edits && reordered[k] in edits;
      }
    }
    var a, b := ApplyAll(document, edits), ApplyAll(document, reordered);
    forall i | 0 <= i < |document| ensures a[i] == b[i] {
      ApplyAllPointwise(document, edits, i);
      ApplyAllPointwise(document, reordered, i);
      if k :| 0 <= k < |edits| && edits[k].position == i {
        assert edits[k] in reordered;
        var m :| 0 <= m < |reordered| && reordered[m] == edits[k];
      } else {
        forall m | 0 <= m < |reordered| ensures reordered[m].position != i {
          assert reordered[m] in edits;
        }
      }
    }
  }

  /** The host's binding of identifier names to symbols. */
  type SemanticModel = map<string, Symbol>

  function Bind(model: SemanticModel, token: Token): Option<Symbol> {
    if token.Identifier? && token.name in model then Some(model[token.name]) else None
  }

  /** What the analyzer reports for the token at `i` (nothing for a token
      that is not an identifier name). */
  function DiagnosticsAt(document: seq<Token>, model: SemanticModel, i: nat): seq<Diagnostic>
    requires i < |document|
  {
    TokenDiagnostics(model, i, document[i])
  }

  function TokenDiagnostics(model: SemanticModel, i: nat, token: Token): seq<Diagnostic> {
    if token.Identifier? then Diagnostics(i, Bind(model, token)) else []
  }

  /** The per-token results laid end to end. */
  function Flatten<T>(parts: seq<seq<T>>): seq<T> {
    if parts == [] then [] else Flatten(parts[..|parts| - 1]) + parts[|parts| - 1]
  }

  /** A flattening is empty iff every part is. */
  lemma {:induction false} FlattenEmpty<T>(parts: seq<seq<T>>)
    ensures Flatten(parts) == [] <==> forall i :: 0 <= i < |parts| ==> parts[i] == []
  {
    if parts != [] {
      var n := |parts| - 1;
      FlattenEmpty(parts[..n]);
      assert forall i :: 0 <= i < n ==> parts[..n][i] == parts[i];
    }
  }

  /** What the analyzer reports for each token, in source order. */
  function DiagnosticsPerToken(document: seq<Token>, model: SemanticModel): (parts: seq<seq<Diagnostic>>)
    ensures |parts| == |document|
    ensures forall i :: 0 <= i < |document| ==> parts[i] == DiagnosticsAt(document, model, i)
  {
    seq(|document|, i requires 0 <= i < |document| => DiagnosticsAt(document, model, i))
  }

  /** The host's traversal: the analyzer run on every token in source order. */
  function AnalyzeDocument(document: seq<Token>, model: SemanticModel): seq<Diagnostic> {
    Flatten(DiagnosticsPerToken(document, model))
  }

  /** A document analyses clean iff no token on its own reports anything. */
  lemma AnalyzeDocumentEmpty(document: seq<Token>, model: SemanticModel)
    ensures AnalyzeDocument(document, model) == [] <==>
              forall i :: 0 <= i < |document| ==> DiagnosticsAt(document, model, i) == []
  {
    FlattenEmpty(DiagnosticsPerToken(document, model));
  }

  /** No token of the document reports anything on its own. */
  predicate TokensClean(document: seq<Token>, model: SemanticModel) {
    forall i :: 0 <= i < |document| ==> DiagnosticsAt(document, model, i) == []
  }

  lemma CleanTokensCleanDocument(document: seq<Token>, model: SemanticModel)
    requires TokensClean(document, model)
    ensures AnalyzeDocument(document, model) == []
  {
    AnalyzeDocumentEmpty(document, model);
  }

  /** `root.FindNode(span)` for the span of the identifier at `i`: the
      outermost node with exactly that span. That is the identifier name
      itself, except at the positions in `enclosed`, where an enclosing node
      has the same span (an identifier that is a whole argument, as in
      `M(OldProp)`, is found as the argument). */
  function FindNode(enclosed: set<nat>, i: nat): Option<SyntaxNode> {
    if i in enclosed then Some(OtherNode) else Some(IdentifierName(i))
  }

  /** The fix offered for the identifier at `i`, as the host asks for it:
      for the first diagnostic there, on the node found at its span. */
  function FixAt(document: seq<Token>, model: SemanticModel, enclosed: set<nat>, i: nat): Option<CodeAction>
    requires i < |document|
  {
    var ds := DiagnosticsAt(document, model, i);
    if ds == [] then None
    else ProposedFix(FindNode(enclosed, i), Bind(model, document[i]), ds[0])
  }

  /** The fix offered for each token, in source order. */
  function FixesPerToken(document: seq<Token>, model: SemanticModel, enclosed: set<nat>): (fixes: seq<Option<CodeAction>>)
    ensures |fixes| == |document|
    ensures forall i :: 0 <= i < |document| ==> fixes[i] == FixAt(document, model, enclosed, i)
  {
    seq(|document|, i requires 0 <= i < |document| => FixAt(document, model, enclosed, i))
  }

  /** The batch fixer's edits: one rename per token that has a fix, to that
      fix's new name, in source order. */
  function EditsFor(fixes: seq<Option<CodeAction>>): (edits: seq<Edit>)
    ensures forall k :: 0 <= k < |edits| ==>
              edits[k].position < |fixes| && fixes[edits[k].position].Some?
              && edits[k].newName == fixes[edits[k].position].value.newName
    ensures forall i :: 0 <= i < |fixes| && fixes[i].Some? ==> Edit(i, fixes[i].value.newName) in edits
    ensures forall j, k :: 0 <= j < k < |edits| ==> edits[j].position < edits[k].position
  {
    if fixes == [] then []
    else
      var n := |fixes| - 1;
      var earlier := EditsFor(fixes[..n]);
      if fixes[n].None? then earlier else earlier + [Edit(n, fixes[n].value.newName)]
  }

  function FixAllEdits(document: seq<Token>, model: SemanticModel, enclosed: set<nat>): (edits: seq<Edit>)
    ensures forall k :: 0 <= k < |edits| ==>
              edits[k].position < |document| && FixAt(document, model, enclosed, edits[k].position).Some?
              && edits[k].newName == FixAt(document, model, enclosed, edits[k].position).value.newName
    ensures forall i :: 0 <= i < |document| && FixAt(document, model, enclosed, i).Some? ==>
              Edit(i, FixAt(document, model, enclosed, i).value.newName) in edits
  {
    EditsFor(FixesPerToken(document, model, enclosed))
  }

  /** A name that binds to no obsolete symbol. */
  predicate NotObsolete(model: SemanticModel, name: string) {
    name !in model || ObsoleteIndices(model[name].attributes) == []
  }

  /** Applying the edits built from per-token fixes renames exactly the
      tokens that have a fix. */
  lemma EditsForPointwise(document: seq<Token>, fixes: seq<Option<CodeAction>>)
    requires |fixes| == |document|
    requires forall i :: 0 <= i < |fixes| && fixes[i].Some? ==> document[i].Identifier?
    ensures EditsApply(document, EditsFor(fixes)) && NonConflicting(EditsFor(fixes))
    ensures forall i :: 0 <= i < |document| ==>
              ApplyAll(document, EditsFor(fixes))[i]
              == if fixes[i].Some? then Identifier(fixes[i].value.newName) else document[i]
  {
    var edits := EditsFor(fixes);
    assert NonConflicting(edits) by {
      forall j, k | 0 <= j < |edits| && 0 <= k < |edits| && edits[j].position == edits[k].position
        ensures edits[j] == edits[k]
      {
        if j < k || k < j {
          assert false;
        }
      }
    }
    forall i | 0 <= i < |document|
      ensures ApplyAll(document, edits)[i] == if fixes[i].Some? then Identifier(fixes[i].value.newName) else document[i]
    {
      ApplyAllPointwise(document, edits, i);
      if fixes[i].Some? {
        var k :| 0 <= k < |edits| && edits[k] == Edit(i, fixes[i].value.newName);
      }
    }
  }

  /** A fix is only ever offered for a flagged identifier token. */
  lemma FixOnlyWhereFlagged(document: seq<Token>, model: SemanticModel, enclosed: set<nat>, i: nat)
    requires i < |document|
    ensures FixAt(document, model, enclosed, i).Some? ==> document[i].Identifier? && DiagnosticsAt(document, model, i) != []
  {
  }

  /** Fix-all's edits all target identifier tokens and never conflict. */
  lemma FixAllEditsApply(document: seq<Token>, model: SemanticModel, enclosed: set<nat>)
    ensures EditsApply(document, FixAllEdits(document, model, enclosed))
    ensures NonConflicting(FixAllEdits(document, model, enclosed))
  {
    var fixes := FixesPerToken(document, model, enclosed);
    forall i | 0 <= i < |fixes| && fixes[i].Some? ensures document[i].Identifier? {
      FixOnlyWhereFlagged(document, model, enclosed, i);
    }
    EditsForPointwise(document, fixes);
  }

  /** Fix-all renames exactly the flagged identifiers that have a fix and
      leaves every other token (including unflagged uses of the new name)
      as it was. */
  lemma FixAllRewritesOnlyFlagged(document: seq<Token>, model: SemanticModel, enclosed: set<nat>)
    ensures EditsApply(document, FixAllEdits(document, model, enclosed))
    ensures NonConflicting(FixAllEdits(document, model, enclosed))
    ensures forall i :: 0 <= i < |document| ==>
              ApplyAll(document, FixAllEdits(document, model, enclosed))[i]
              == if FixAt(document, model, enclosed, i).Some? then Identifier(FixAt(document, model, enclosed, i).value.newName) else document[i]
  {
    var fixes := FixesPerToken(document, model, enclosed);
    FixAllEditsApply(document, model, enclosed);
    EditsForPointwise(document, fixes);
  }

  /** A name that reads back as one identifier token: letters, digits and
      `_`, not starting with a digit. A replacement such as `Helpers.NewMethod`
      or `""` is written into the source as it is, and reads back as several
      tokens or none. */
  predicate IsSimpleIdentifier(name: string) {
    && |name| > 0
    && !('0' <= name[0] <= '9')
    && forall k :: 0 <= k < |name| ==>
         ('a' <= name[k] <= 'z') || ('A' <= name[k] <= 'Z') || ('0' <= name[k] <= '9') || name[k] == '_'
  }

  /** The token at `i` is unflagged, or it has a fix whose new name is one
      identifier that is not itself obsolete. */
  predicate FixableAt(document: seq<Token>, model: SemanticModel, enclosed: set<nat>, i: nat)
    requires i < |document|
  {
    DiagnosticsAt(document, model, i) != [] ==>
      && FixAt(document, model, enclosed, i).Some?
      && IsSimpleIdentifier(FixAt(document, model, enclosed, i).value.newName)
      && NotObsolete(model, FixAt(document, model, enclosed, i).value.newName)
  }

  /** Every flagged token has a fix whose new name is one identifier that is
      not itself obsolete. */
  predicate FixableEverywhere(document: seq<Token>, model: SemanticModel, enclosed: set<nat>) {
    forall i :: 0 <= i < |document| ==> FixableAt(document, model, enclosed, i)
  }

  /** A token left clean by fix-all: unflagged and untouched, or renamed to a
      name that is not obsolete. */
  lemma CleanAfterFix(document: seq<Token>, model: SemanticModel, enclosed: set<nat>, i: nat)
    requires i < |document| && FixableAt(document, model, enclosed, i)
    ensures EditsApply(document, FixAllEdits(document, model, enclosed))
    ensures DiagnosticsAt(ApplyAll(document, FixAllEdits(document, model, enclosed)), model, i) == []
  {
    FixAllRewritesOnlyFlagged(document, model, enclosed);
    var symbol := Bind(model, ApplyAll(document, FixAllEdits(document, model, enclosed))[i]);
    if symbol.Some? {
      ObsoleteIndicesComplete(symbol.value.attributes);
    }
    NoDiagnosticsIff(i, symbol);
  }

  /** Fix-all followed by a fresh analysis reports nothing, provided every
      flagged identifier has a fix (it is found as an identifier name and its
      message starts with "Use ") whose new name is one identifier that is
      not itself obsolete. */
  lemma FixAllClearsDiagnostics(document: seq<Token>, model: SemanticModel, enclosed: set<nat>)
    requires FixableEverywhere(document, model, enclosed)
    ensures EditsApply(document, FixAllEdits(document, model, enclosed))
    ensures AnalyzeDocument(ApplyAll(document, FixAllEdits(document, model, enclosed)), model) == []
  {
    FixedTokensClean(document, model, enclosed);
    CleanTokensCleanDocument(ApplyAll(document, FixAllEdits(document, model, enclosed)), model);
  }

  /** Token by token, nothing is flagged after fix-all. */
  lemma FixedTokensClean(document: seq<Token>, model: SemanticModel, enclosed: set<nat>)
    requires FixableEverywhere(document, model, enclosed)
    ensures EditsApply(document, FixAllEdits(document, model, enclosed))
    ensures TokensClean(ApplyAll(document, FixAllEdits(document, model, enclosed)), model)
  {
    FixAllEditsApply(document, model, enclosed);
    forall i | 0 <= i < |ApplyAll(document, FixAllEdits(document, model, enclosed))|
      ensures DiagnosticsAt(ApplyAll(document, FixAllEdits(document, model, enclosed)), model, i) == []
    {
      CleanAfterFix(document, model, enclosed, i);
    }
  }

  /** An identifier found as an enclosing node gets no fix: fix-all keeps it
      as it was, and it is still flagged afterwards. */
  lemma EnclosedUseKept(document: seq<Token>, model: SemanticModel, enclosed: set<nat>, i: nat)
    requires i < |document| && i in enclosed
    ensures FixAt(document, model, enclosed, i).None?
    ensures EditsApply(document, FixAllEdits(document, model, enclosed))
    ensures ApplyAll(document, FixAllEdits(document, model, enclosed))[i] == document[i]
    ensures DiagnosticsAt(ApplyAll(document, FixAllEdits(document, model, enclosed)), model, i) == DiagnosticsAt(document, model, i)
  {
    assert FindNode(enclosed, i) == Some(OtherNode);
    UnfixedTokenKept(document, model, enclosed, i);
  }

  /** A token without a fix is the same after fix-all. */
  lemma UnfixedTokenKept(document: seq<Token>, model: SemanticModel, enclosed: set<nat>, i: nat)
    requires i < |document| && FixAt(document, model, enclosed, i).None?
    ensures EditsApply(document, FixAllEdits(document, model, enclosed))
    ensures ApplyAll(document, FixAllEdits(document, model, enclosed))[i] == document[i]
  {
    FixAllRewritesOnlyFlagged(document, model, enclosed);
  }

  /** A symbol with one obsolete attribute gets exactly one diagnostic. */
  lemma SingleObsoleteAttributeReported(location: nat, name: string, message: Option<string>)
    ensures Diagnostics(location, Some(Symbol(name, [Attribute(Some(ObsoleteAttributeName), [message])])))
            == [Diagnostic(Rule, location, [name, message.GetOr("")])]
  {
    assert [Attribute(Some(ObsoleteAttributeName), [message])][..0] == [];
  }

  /** The analyzer reports an obsolete attribute whatever its message says,
      while a fix exists only for a message starting with "Use ": a
      diagnostic can stand without a fix. */
  lemma ReportedWhateverTheMessage(location: nat, name: string, message: Option<string>, node: Option<SyntaxNode>, diagnostic: Diagnostic)
    ensures var symbol := Symbol(name, [Attribute(Some(ObsoleteAttributeName), [message])]);
            && Diagnostics(location, Some(symbol)) == [Diagnostic(Rule, location, [name, message.GetOr("")])]
            && (ProposedFix(node, Some(symbol), diagnostic).Some? <==>
                  node.Some? && node.value.IdentifierName? && message.Some? && StartsWith(message.value, "Use "))
  {
    SingleObsoleteAttributeReported(location, name, message);
    FixOfferedIff(node, Some(Symbol(name, [Attribute(Some(ObsoleteAttributeName), [message])])), diagnostic);
  }

  /** The multiple-usages test: `var a = OldProp; var b = this.OldProp;
      var c = NewProp;` with `OldProp` marked `[Obsolete("Use NewProp
      instead")]`, here for any two distinct names. */
  function ScenarioMessage(newName: string): string {
    UsePrefix + newName + " " + "instead"
  }

  function ScenarioModel(oldName: string, newName: string): SemanticModel {
    map[oldName := Symbol(oldName, [Attribute(Some(ObsoleteAttributeName), [Some(ScenarioMessage(newName))])]),
        newName := Symbol(newName, [])]
  }

  function ScenarioDocument(oldName: string, newName: string): seq<Token> {
    [Other("a ="), Identifier(oldName), Other("; b = this."), Identifier(oldName),
     Other("; c ="), Identifier(newName), Other(";")]
  }

  /** The two uses of the old name are flagged with (old name, message) and
      offered the new name. */
  lemma ScenarioFlagged(oldName: string, newName: string, i: nat)
    requires oldName != newName && ' ' !in newName && (i == 1 || i == 3)
    ensures var document, model := ScenarioDocument(oldName, newName), ScenarioModel(oldName, newName);
            && DiagnosticsAt(document, model, i) == [Diagnostic(Rule, i, [oldName, ScenarioMessage(newName)])]
            && FixAt(document, model, {}, i).Some? && FixAt(document, model, {}, i).value.newName == newName
  {
    var document, model := ScenarioDocument(oldName, newName), ScenarioModel(oldName, newName);
    var symbol := model[oldName];
    assert Bind(model, document[i]) == Some(symbol);
    SingleObsoleteAttributeReported(i, oldName, Some(ScenarioMessage(newName)));
    assert ObsoleteMessage(Some(symbol)) == Some(ScenarioMessage(newName));
    ParseUseMessage(newName, "instead");
  }

  /** No other token is flagged, the use of the new name included. */
  lemma ScenarioUnflagged(oldName: string, newName: string, i: nat)
    requires oldName != newName && i < 7 && i != 1 && i != 3
    ensures var document, model := ScenarioDocument(oldName, newName), ScenarioModel(oldName, newName);
            DiagnosticsAt(document, model, i) == [] && FixAt(document, model, {}, i).None?
  {
  }

  /** The analyzer flags both uses of the old name, in source order. */
  lemma ScenarioDiagnostics(oldName: string, newName: string)
    requires oldName != newName && ' ' !in newName
    ensures AnalyzeDocument(ScenarioDocument(oldName, newName), ScenarioModel(oldName, newName))
            == [Diagnostic(Rule, 1, [oldName, ScenarioMessage(newName)]), Diagnostic(Rule, 3, [oldName, ScenarioMessage(newName)])]
  {
    var document, model := ScenarioDocument(oldName, newName), ScenarioModel(oldName, newName);
    var parts := DiagnosticsPerToken(document, model);
    var d1, d3 := Diagnostic(Rule, 1, [oldName, ScenarioMessage(newName)]), Diagnostic(Rule, 3, [oldName, ScenarioMessage(newName)]);
    forall i | 0 <= i < 7
      ensures parts[i] == [[], [d1], [], [d3], [], [], []][i]
    {
      if i == 1 || i == 3 {
        ScenarioFlagged(oldName, newName, i);
      } else {
        ScenarioUnflagged(oldName, newName, i);
      }
    }
    assert parts == [[], [d1], [], [d3], [], [], []];
    FlattenTwoOfSeven(d1, d3);
  }

  /** The per-token reports of the scenario, laid end to end. */
  lemma FlattenTwoOfSeven<T>(a: T, b: T)
    ensures Flatten([[], [a], [], [b], [], [], []]) == [a, b]
  {
    var none: seq<T> := [];
    var p1 := [none];
    var p2 := p1 + [[a]];
    var p3 := p2 + [none];
    var p4 := p3 + [[b]];
    var p5 := p4 + [none];
    var p6 := p5 + [none];
    var p7 := p6 + [none];
    FlattenSnoc([], none);
    assert [] + [none] == p1;
    FlattenSnoc(p1, [a]);
    FlattenSnoc(p2, none);
    FlattenSnoc(p3, [b]);
    FlattenSnoc(p4, none);
    FlattenSnoc(p5, none);
    FlattenSnoc(p6, none);
    assert p7 == [[], [a], [], [b], [], [], []];
  }

  /** Flattening one more part appends that part. */
  lemma FlattenSnoc<T>(parts: seq<seq<T>>, p: seq<T>)
    ensures Flatten(parts + [p]) == Flatten(parts) + p
  {
    assert (parts + [p])[..|parts|] == parts;
  }

  /** Fix-all renames exactly the two flagged uses, keeps the `this.`
      qualifier and the existing use of the new name, and the fixed code
      analyses clean. */
  lemma ScenarioFixAll(oldName: string, newName: string)
    requires oldName != newName && IsSimpleIdentifier(newName)
    ensures var document, model := ScenarioDocument(oldName, newName), ScenarioModel(oldName, newName);
            && EditsApply(document, FixAllEdits(document, model, {}))
            && ApplyAll(document, FixAllEdits(document, model, {})) == document[1 := Identifier(newName)][3 := Identifier(newName)]
            && AnalyzeDocument(ApplyAll(document, FixAllEdits(document, model, {})), model) == []
  {
    var document, model := ScenarioDocument(oldName, newName), ScenarioModel(oldName, newName);
    ScenarioFixable(oldName, newName);
    FixAllClearsDiagnostics(document, model, {});
    ScenarioRenamed(oldName, newName);
  }

  /** Every flagged use in the scenario has a fix to the new name, which is
      one identifier and not obsolete. */
  lemma ScenarioFixable(oldName: string, newName: string)
    requires oldName != newName && IsSimpleIdentifier(newName)
    ensures FixableEverywhere(ScenarioDocument(oldName, newName), ScenarioModel(oldName, newName), {})
  {
    var document, model := ScenarioDocument(oldName, newName), ScenarioModel(oldName, newName);
    assert ' ' !in newName;
    forall i | 0 <= i < 7 ensures FixableAt(document, model, {}, i) {
      if i == 1 || i == 3 {
        ScenarioFlagged(oldName, newName, i);
      } else {
        ScenarioUnflagged(oldName, newName, i);
      }
    }
  }

  /** Fix-all renames tokens 1 and 3 and keeps the other five. */
  lemma ScenarioRenamed(oldName: string, newName: string)
    requires oldName != newName && ' ' !in newName
    ensures var document, model := ScenarioDocument(oldName, newName), ScenarioModel(oldName, newName);
            ApplyAll(document, FixAllEdits(document, model, {})) == document[1 := Identifier(newName)][3 := Identifier(newName)]
  {
    var document, model := ScenarioDocument(oldName, newName), ScenarioModel(oldName, newName);
    FixAllRewritesOnlyFlagged(document, model, {});
    var result, fixed := ApplyAll(document, FixAllEdits(document, model, {})), document[1 := Identifier(newName)][3 := Identifier(newName)];
    forall i | 0 <= i < 7 ensures result[i] == fixed[i] {
      if i == 1 || i == 3 {
        ScenarioFlagged(oldName, newName, i);
      } else {
        ScenarioUnflagged(oldName, newName, i);
      }
    }
  }
}
