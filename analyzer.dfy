/**
  The ReplaceObsolete analyzer: for every identifier name the host visits,
  one diagnostic ROB001 per `System.ObsoleteAttribute` on the symbol the
  identifier binds to, carrying the symbol's name and the attribute's message.
 */
module Analyzer {
  import opened Wrappers
  import opened Symbols

  datatype Severity = Hidden | Info | Warning | Error

  /** The immutable rule descriptor (its localizable title, message format
      and description are resource strings and are not modelled). */
  datatype DiagnosticDescriptor = DiagnosticDescriptor(
    id: string, category: string, defaultSeverity: Severity, isEnabledByDefault: bool)

  const DiagnosticId: string := "ROB001"
  const Category: string := "Maintainability"
  const Rule: DiagnosticDescriptor := DiagnosticDescriptor(DiagnosticId, Category, Info, true)

  /** A reported diagnostic. The location is the index of the identifier
      token the analysed node spans; the arguments fill the message format's
      `{0}` and `{1}`. */
  datatype Diagnostic = Diagnostic(descriptor: DiagnosticDescriptor, location: nat, arguments: seq<string>)

  /** The one rule this analyzer supports. */
  function SupportedDiagnostics(): (rules: seq<DiagnosticDescriptor>)
    ensures |rules| == 1
    ensures rules[0].id == "ROB001" && rules[0].category == "Maintainability"
    ensures rules[0].defaultSeverity == Info && rules[0].isEnabledByDefault
  {
    [Rule]
  }

  /** The diagnostic for one obsolete attribute: arguments (symbol name, message or ""). */
  function Report(location: nat, symbol: Symbol, attr: Attribute): Diagnostic {
    Diagnostic(Rule, location, [symbol.name, FirstArgument(attr).GetOr("")])
  }

  /** The diagnostics the attribute scan reports, in attribute order. */
  function ReportsFor(location: nat, symbol: Symbol, attrs: seq<Attribute>): (ds: seq<Diagnostic>)
    ensures |ds| <= |attrs|
    ensures forall k :: 0 <= k < |ds| ==>
              ds[k].descriptor == Rule && ds[k].location == location
              && |ds[k].arguments| == 2 && ds[k].arguments[0] == symbol.name
  {
    if attrs == [] then []
    else
      var n := |attrs| - 1;
      ReportsFor(location, symbol, attrs[..n]) + (if IsObsolete(attrs[n]) then [Report(location, symbol, attrs[n])] else [])
  }

  /** What `AnalyzeIdentifier` reports for an identifier at `location` bound
      to `symbol` (None when the symbol does not resolve). */
  function Diagnostics(location: nat, symbol: Option<Symbol>): seq<Diagnostic> {
    match symbol
    case None => []
    case Some(s) => ReportsFor(location, s, s.attributes)
  }

  /** The analysis action for one identifier name: the host's
      `ReportDiagnostic` sink is the sequence `reported`, appended to in order. */
  method AnalyzeIdentifier(location: nat, symbol: Option<Symbol>) returns (reported: seq<Diagnostic>)
    ensures reported == Diagnostics(location, symbol)
  {
    reported := [];
    if symbol.None? {
      return;
    }
    var s := symbol.value;
    var attrs := s.attributes;
    for i := 0 to |attrs|
      invariant reported == ReportsFor(location, s, attrs[..i])
    {
      var attr := attrs[i];
      if attr.attributeClass == Some(ObsoleteAttributeName) {
        var message := FirstArgument(attr).GetOr("");
        var diagnostic := Diagnostic(Rule, location, [s.name, message]);
        reported := reported + [diagnostic];
      }
      assert attrs[..i + 1][..i] == attrs[..i];
    }
    assert attrs[..|attrs|] == attrs;
  }

  /** Exactly one diagnostic per obsolete attribute, in attribute order, each
      carrying that attribute's message (or "" when it has none). */
  lemma {:induction false} ReportsMatchObsoleteAttributes(location: nat, symbol: Symbol, attrs: seq<Attribute>)
    ensures |ReportsFor(location, symbol, attrs)| == |ObsoleteIndices(attrs)|
    ensures forall k :: 0 <= k < |ObsoleteIndices(attrs)| ==>
              ReportsFor(location, symbol, attrs)[k]
              == Diagnostic(Rule, location, [symbol.name, FirstArgument(attrs[ObsoleteIndices(attrs)[k]]).GetOr("")])
  {
    if attrs != [] {
      var n := |attrs| - 1;
      ReportsMatchObsoleteAttributes(location, symbol, attrs[..n]);
      var idx := ObsoleteIndices(attrs[..n]);
      assert forall k :: 0 <= k < |idx| ==> attrs[..n][idx[k]] == attrs[idx[k]];
    }
  }

  /** An identifier reports nothing iff its symbol does not resolve or
      carries no obsolete attribute; the message format plays no part. */
  lemma NoDiagnosticsIff(location: nat, symbol: Option<Symbol>)
    ensures Diagnostics(location, symbol) == [] <==>
              symbol.None? || forall i :: 0 <= i < |symbol.value.attributes| ==> !IsObsolete(symbol.value.attributes[i])
  {
    if symbol.Some? {
      var attrs := symbol.value.attributes;
      ReportsMatchObsoleteAttributes(location, symbol.value, attrs);
      ObsoleteIndicesComplete(attrs);
      if ObsoleteIndices(attrs) != [] {
        assert IsObsolete(attrs[ObsoleteIndices(attrs)[0]]);
      }
    }
  }
}
