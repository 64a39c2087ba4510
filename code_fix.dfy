/**
  The ReplaceObsolete code-fix provider: reads the replacement name out of an
  `[Obsolete("Use X instead")]` message and offers to rename the flagged
  identifier token to it.
 */
module CodeFix {
  import opened Wrappers
  import opened DotNetStrings
  import opened Symbols
  import opened Analyzer

  const UsePrefix: string := "Use "
  const EquivalenceKey: string := "ReplaceObsoleteCodeFixProvider"

  /** The provider fixes exactly the rule the analyzer supports. */
  function FixableDiagnosticIds(): (ids: seq<string>)
    ensures ids == [SupportedDiagnostics()[0].id]
  {
    [DiagnosticId]
  }

  /** `GetAttributes().FirstOrDefault(a => a.AttributeClass?.ToDisplayString()
      == "System.ObsoleteAttribute")`: the first obsolete attribute, if any. */
  function FindObsoleteAttribute(attrs: seq<Attribute>): (found: Option<Attribute>)
    ensures found.None? <==> ObsoleteIndices(attrs) == []
    ensures found.Some? ==> found.value == attrs[ObsoleteIndices(attrs)[0]]
  {
    if attrs == [] then None
    else if IsObsolete(attrs[0]) then
      ObsoleteIndicesComplete(attrs);
      FirstObsoleteIndex(attrs);
      Some(attrs[0])
    else
      var found := FindObsoleteAttribute(attrs[1..]);
      FindShifts(attrs);
      found
  }

  /** Skipping a leading non-obsolete attribute shifts every obsolete index by one. */
  lemma FindShifts(attrs: seq<Attribute>)
    requires attrs != [] && !IsObsolete(attrs[0])
    ensures ObsoleteIndices(attrs) == [] <==> ObsoleteIndices(attrs[1..]) == []
    ensures ObsoleteIndices(attrs) != [] ==> ObsoleteIndices(attrs)[0] == ObsoleteIndices(attrs[1..])[0] + 1
  {
    ObsoleteIndicesShift(attrs);
    if ObsoleteIndices(attrs[1..]) != [] {
      AdvanceAt(ObsoleteIndices(attrs[1..]), 0);
    }
  }

  /** The message of the symbol's first obsolete attribute; None when the
      symbol does not resolve, has no such attribute, or the message is null. */
  function ObsoleteMessage(symbol: Option<Symbol>): Option<string> {
    if symbol.None? then None
    else
      var attr := FindObsoleteAttribute(symbol.value.attributes);
      if attr.None? then None else FirstArgument(attr.value)
  }

  /** The replacement name: `message.Split(' ')[1]` when the message is not
      null or white space and starts with "Use ", otherwise none. */
  function ParseReplacement(message: Option<string>): (replacement: Option<string>)
    ensures replacement.Some? <==> message.Some? && StartsWith(message.value, UsePrefix)
    ensures replacement.Some? ==> IsFirstWord(message.value[|UsePrefix|..], replacement.value)
  {
    if !IsNullOrWhiteSpace(message) && StartsWith(message.value, UsePrefix) then
      var m := message.value;
      assert m == "Use" + [' '] + m[4..];
      SplitAt("Use", m[4..], ' ');
      SplitFirstField(m[4..]);
      Some(Split(m, ' ')[1])
    else
      assert message.Some? && StartsWith(message.value, UsePrefix) ==> !IsWhiteSpace(message.value[0]);
      None
  }

  /** "Use <name>" and "Use <name> <rest>" give `name` for any name without a
      space: "Use NewProp instead" gives "NewProp". With the empty name this
      is "Use " and "Use  <rest>", which give the empty name, still a fix. */
  lemma ParseUseMessage(name: string, rest: string)
    requires ' ' !in name
    ensures ParseReplacement(Some(UsePrefix + name)) == Some(name)
    ensures ParseReplacement(Some(UsePrefix + name + " " + rest)) == Some(name)
  {
    var m1, m2 := UsePrefix + name, UsePrefix + name + " " + rest;
    assert m1[..4] == UsePrefix && m1[4..] == name;
    assert m2[..4] == UsePrefix && m2[4..] == name + " " + rest;
    assert IsFirstWord(m1[4..], name);
    assert IsFirstWord(m2[4..], name) by { assert m2[4..][..|name|] == name; }
    FirstWordUnique(m1[4..], ParseReplacement(Some(m1)).value, name);
    FirstWordUnique(m2[4..], ParseReplacement(Some(m2)).value, name);
  }

  /** A leading blank, another casing or a missing space gives no name. */
  lemma ParseNoReplacement()
    ensures ParseReplacement(Some(" Use NewProp")) == None
    ensures ParseReplacement(Some("use NewProp")) == None
    ensures ParseReplacement(Some("Use")) == None
    ensures ParseReplacement(Some("   ")) == None
    ensures ParseReplacement(None) == None
  {
    assert !StartsWith(" Use NewProp", UsePrefix) by { assert " Use NewProp"[0] != UsePrefix[0]; }
    assert !StartsWith("use NewProp", UsePrefix) by { assert "use NewProp"[0] != UsePrefix[0]; }
    assert !StartsWith("   ", UsePrefix) by { assert "   "[0] != UsePrefix[0]; }
  }

  /** A registered fix: its title, the equivalence key that groups it for
      fix-all, what it does when invoked (rename the identifier token at
      `target` to `newName`), and the diagnostic it fixes. */
  datatype CodeAction = CodeAction(title: string, equivalenceKey: string, target: nat, newName: string, diagnostic: Diagnostic)

  /** The fix `RegisterCodeFixesAsync` offers for the node found at the
      diagnostic's span and the symbol that node binds to. */
  function ProposedFix(node: Option<SyntaxNode>, symbol: Option<Symbol>, diagnostic: Diagnostic): Option<CodeAction> {
    if node.None? || !node.value.IdentifierName? then None
    else
      match ParseReplacement(ObsoleteMessage(symbol))
      case None => None
      case Some(replacement) =>
        Some(CodeAction("Replace with '" + replacement + "'", EquivalenceKey, node.value.token, replacement, diagnostic))
  }

  /** A fix is offered iff the node is an identifier name and the message of
      the symbol's first obsolete attribute starts with "Use "; it renames
      that identifier to the message's second space-separated field. */
  lemma FixOfferedIff(node: Option<SyntaxNode>, symbol: Option<Symbol>, diagnostic: Diagnostic)
    ensures ProposedFix(node, symbol, diagnostic).Some? <==>
              && node.Some? && node.value.IdentifierName?
              && symbol.Some? && ObsoleteIndices(symbol.value.attributes) != []
              && var message := FirstArgument(symbol.value.attributes[ObsoleteIndices(symbol.value.attributes)[0]]);
                 message.Some? && StartsWith(message.value, "Use ")
    ensures ProposedFix(node, symbol, diagnostic).Some? ==>
              var action := ProposedFix(node, symbol, diagnostic).value;
              var message := ObsoleteMessage(symbol).value;
              && action.title == "Replace with '" + action.newName + "'"
              && action.equivalenceKey == "ReplaceObsoleteCodeFixProvider"
              && action.target == node.value.token
              && action.diagnostic == diagnostic
              && IsFirstWord(message[4..], action.newName)
              && |Split(message, ' ')| >= 2 && action.newName == Split(message, ' ')[1]
  {
    if ProposedFix(node, symbol, diagnostic).Some? {
      var message := ObsoleteMessage(symbol).value;
      assert message[3] == ' ';
    }
  }

  /** The state the provider reads and writes: the diagnostics to fix and the
      code actions registered so far. The document is not held here: the
      provider reads it only through the node found at the diagnostic's span,
      which `RegisterCodeFixes` takes as a parameter. */
  class CodeFixContext {
    const diagnostics: seq<Diagnostic>
    var registered: seq<CodeAction>

    constructor (diagnostics: seq<Diagnostic>)
      ensures this.diagnostics == diagnostics && registered == []
    {
      this.diagnostics := diagnostics;
      registered := [];
    }

    method RegisterCodeFix(action: CodeAction)
      modifies this
      ensures registered == old(registered) + [action]
    {
      registered := registered + [action];
    }
  }

  /** `RegisterCodeFixesAsync`: registers at most one action, the one
      `ProposedFix` describes, for the context's first diagnostic. */
  method RegisterCodeFixes(context: CodeFixContext, node: Option<SyntaxNode>, symbol: Option<Symbol>)
    requires |context.diagnostics| > 0
    modifies context
    ensures context.registered == old(context.registered) +
              match ProposedFix(node, symbol, context.diagnostics[0])
              case Some(action) => [action]
              case None => []
  {
    var diagnostic := context.diagnostics[0];
    if node.Some? && node.value.IdentifierName? {
      var identifierName := node.value;
      var obsoleteAttr := if symbol.None? then None else FindObsoleteAttribute(symbol.value.attributes);
      var message := if obsoleteAttr.None? then None else FirstArgument(obsoleteAttr.value);

      var replacement: Option<string> := None;
      if !IsNullOrWhiteSpace(message) && StartsWith(message.value, UsePrefix) {
        assert message.value[3] == ' ';
        replacement := Some(Split(message.value, ' ')[1]);
      }

      if replacement.Some? {
        var title := "Replace with '" + replacement.value + "'";
        context.RegisterCodeFix(CodeAction(title, EquivalenceKey, identifierName.token, replacement.value, diagnostic));
      }
    }
  }

  /** The document with the identifier token at `position` renamed to `newName`. */
  function WithIdentifierAt(document: seq<Token>, position: nat, newName: string): (changed: seq<Token>)
    requires position < |document|
    ensures |changed| == |document| && changed[position] == Identifier(newName)
    ensures forall i :: 0 <= i < |document| && i != position ==> changed[i] == document[i]
  {
    document[position := Identifier(newName)]
  }

  /** Roslyn's `DocumentEditor`: a document under edit. */
  class DocumentEditor {
    var tokens: seq<Token>

    constructor (document: seq<Token>)
      ensures tokens == document
    {
      tokens := document;
    }

    method ReplaceNode(position: nat, newToken: Token)
      requires position < |tokens|
      modifies this
      ensures tokens == old(tokens)[position := newToken]
    {
      tokens := tokens[position := newToken];
    }

    function GetChangedDocument(): seq<Token>
      reads this
    {
      tokens
    }
  }

  /** `ReplaceAsync`: the fix's action. Only the identifier token of the
      flagged node changes; qualifiers, initializers and every other token
      are kept. The new token is built from the name alone, so trivia
      attached to the old token (a trailing comment, say) is not carried
      over; tokens here hold no trivia, which the model leaves out. */
  method ReplaceAsync(document: seq<Token>, oldNode: SyntaxNode, newName: string) returns (changed: seq<Token>)
    requires oldNode.IdentifierName? && oldNode.token < |document| && document[oldNode.token].Identifier?
    ensures |changed| == |document| && changed[oldNode.token] == Identifier(newName)
    ensures forall i :: 0 <= i < |document| && i != oldNode.token ==> changed[i] == document[i]
    ensures changed == WithIdentifierAt(document, oldNode.token, newName)
  {
    var editor := new DocumentEditor(document);
    var newNode := Identifier(newName);
    editor.ReplaceNode(oldNode.token, newNode);
    changed := editor.GetChangedDocument();
  }
}
