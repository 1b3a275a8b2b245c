/** Laws of the shadow statements that the taint pass attaches to an
    expression statement, and of the run-wide set of printed shadow texts
    that keeps each of them from being printed twice. */
module ShadowFacts {
  import opened Ast
  import opened Render

  /** A statement with no shadows of its own, as the taint pass builds them. */
  predicate Plain(s: Node)
  {
    s.ExpressionStatement? && s.trackVariable.Nil? && s.trackMapping.Nil?
  }

  /** A plain statement renders as its head and the optional ";", and leaves
      the set alone. */
  lemma PlainStatement(d: Dialect, s: Node, isSc: bool, isIndent: bool, indent: string, track: set<string>)
    requires Plain(s)
    ensures SourceCode(d, s, isSc, isIndent, indent, track) ==
            Out(StatementHead(d, s, isIndent, indent) + Semi(isSc), track)
  {
    var head := StatementHead(d, s, isIndent, indent);
    assert SourceCode(d, s, isSc, isIndent, indent, track) == StatementCode(d, s, isSc, isIndent, indent, track);
    assert Lead(d, s, head, indent, track) == Out(head, track);
    assert ShadowIf(d, s.trackVariable, true, indent, Out(head, track)) == Out(head, track);
    assert ShadowIf(d, s.trackMapping, false, indent, Out(head, track)) == Out(head, track);
  }

  /** A plain shadow statement is printed on a new line exactly when its text
      is not yet in the set, and its text is then in the set. */
  lemma ShadowOnce(d: Dialect, s: Node, isSc: bool, indent: string, acc: Out)
    requires Plain(s)
    ensures var k := StatementHead(d, s, true, indent) + Semi(isSc);
            Shadow(d, s, isSc, indent, acc) ==
            if k in acc.track then acc else Out(acc.code + "\n" + k, acc.track + {k})
  {
    PlainStatement(d, s, isSc, true, indent, acc.track);
  }

  /** Printing the same shadow statement twice is the same as printing it once. */
  lemma ShadowIdempotent(d: Dialect, s: Node, isSc: bool, indent: string, acc: Out)
    requires Plain(s)
    ensures var once := Shadow(d, s, isSc, indent, acc);
            Shadow(d, s, isSc, indent, once) == once
  {
    var k := StatementHead(d, s, true, indent) + Semi(isSc);
    var once := Shadow(d, s, isSc, indent, acc);
    ShadowOnce(d, s, isSc, indent, acc);
    ShadowOnce(d, s, isSc, indent, once);
    assert k in once.track;
  }

  /** The 0.5 rendering of an expression statement with both shadows: the
      ";" after the expression only while the mapping shadow is unprinted,
      then each shadow not yet printed on its own line (the variable shadow
      with ";", the mapping shadow terminated by the statement's own ";"),
      and both shadow texts end up in the set. */
  lemma ShadowedStatement(n: Node, isSc: bool, isIndent: bool, indent: string, track: set<string>)
    requires n.ExpressionStatement? && !n.expression.Nil?
    requires Plain(n.trackVariable) && Plain(n.trackMapping)
    ensures var kV := StatementHead(Legacy, n.trackVariable, true, indent) + ";";
            var kM := StatementHead(Legacy, n.trackMapping, true, indent);
            var o := SourceCode(Legacy, n, isSc, isIndent, indent, track);
            o.code == StatementHead(Legacy, n, isIndent, indent)
                      + (if kM in track then "" else ";")
                      + (if kV in track then "" else "\n" + kV)
                      + (if kM in track + {kV} then "" else "\n" + kM)
                      + Semi(isSc)
            && o.track == track + {kV, kM}
  {
    var v := n.trackVariable;
    var m := n.trackMapping;
    var kV := StatementHead(Legacy, v, true, indent) + ";";
    var kM := StatementHead(Legacy, m, true, indent);
    var head := StatementHead(Legacy, n, isIndent, indent);
    var a := Lead(Legacy, n, head, indent, track);
    LeadProbe(n, head, indent, track);
    var b := ShadowIf(Legacy, v, true, indent, a);
    ShadowLine(Legacy, v, true, indent, a);
    var c := ShadowIf(Legacy, m, false, indent, b);
    ShadowLine(Legacy, m, false, indent, b);
    assert kM + Semi(false) == kM;
    assert SourceCode(Legacy, n, isSc, isIndent, indent, track) == StatementCode(Legacy, n, isSc, isIndent, indent, track);
    assert StatementCode(Legacy, n, isSc, isIndent, indent, track) == Out(c.code + Semi(isSc), c.track);
  }

  /** The probe of a plain mapping shadow leaves the set alone, so the ";"
      after the head depends only on whether its text was printed before. */
  lemma LeadProbe(n: Node, head: string, indent: string, track: set<string>)
    requires n.ExpressionStatement? && !n.expression.Nil? && Plain(n.trackMapping)
    ensures Lead(Legacy, n, head, indent, track) ==
            Out(head + (if StatementHead(Legacy, n.trackMapping, true, indent) in track then "" else ";"), track)
  {
    PlainStatement(Legacy, n.trackMapping, false, true, indent, track);
    assert StatementHead(Legacy, n.trackMapping, true, indent) + Semi(false) == StatementHead(Legacy, n.trackMapping, true, indent);
  }

  /** A plain shadow in its slot appends "\n" and its text iff the text is new. */
  lemma ShadowLine(d: Dialect, s: Node, isSc: bool, indent: string, acc: Out)
    requires Plain(s)
    ensures var k := StatementHead(d, s, true, indent) + Semi(isSc);
            var o := ShadowIf(d, s, isSc, indent, acc);
            o.code == acc.code + (if k in acc.track then "" else "\n" + k) && o.track == acc.track + {k}
  {
    var k := StatementHead(d, s, true, indent) + Semi(isSc);
    assert ShadowIf(d, s, isSc, indent, acc) == Shadow(d, s, isSc, indent, acc);
    ShadowOnce(d, s, isSc, indent, acc);
    OnceLine(acc, Shadow(d, s, isSc, indent, acc), k);
  }

  lemma OnceLine(acc: Out, o: Out, k: string)
    requires o == if k in acc.track then acc else Out(acc.code + "\n" + k, acc.track + {k})
    ensures o.code == acc.code + (if k in acc.track then "" else "\n" + k) && o.track == acc.track + {k}
  {
    if k in acc.track {
      assert acc.track + {k} == acc.track;
    } else {
      assert acc.code + "\n" + k == acc.code + ("\n" + k);
    }
  }

  /** Rendering a statement a second time, against the set its first
      rendering left, prints no shadow text and no extra ";", and leaves the
      set as it was. */
  lemma SecondRenderBare(n: Node, isSc: bool, isIndent: bool, indent: string, track: set<string>)
    requires n.ExpressionStatement? && !n.expression.Nil?
    requires Plain(n.trackVariable) && Plain(n.trackMapping)
    ensures var first := SourceCode(Legacy, n, isSc, isIndent, indent, track);
            SourceCode(Legacy, n, isSc, isIndent, indent, first.track) ==
            Out(StatementHead(Legacy, n, isIndent, indent) + Semi(isSc), first.track)
  {
    var first := SourceCode(Legacy, n, isSc, isIndent, indent, track);
    ShadowedStatement(n, isSc, isIndent, indent, track);
    ShadowedStatement(n, isSc, isIndent, indent, first.track);
  }

  /** The 0.8 rule prints no shadows: the statement renders exactly as the
      same statement with its shadows removed, and the set is untouched. */
  lemma V08IgnoresShadows(n: Node, isSc: bool, isIndent: bool, indent: string, track: set<string>)
    requires n.ExpressionStatement?
    ensures var bare := n.(trackVariable := Nil, trackMapping := Nil);
            SourceCode(V08, n, isSc, isIndent, indent, track) ==
            SourceCode(V08, bare, isSc, isIndent, indent, track) &&
            SourceCode(V08, n, isSc, isIndent, indent, track).track == track
  {
    var bare := n.(trackVariable := Nil, trackMapping := Nil);
    assert SourceCode(V08, n, isSc, isIndent, indent, track) == StatementCode(V08, n, isSc, isIndent, indent, track);
    assert SourceCode(V08, bare, isSc, isIndent, indent, track) == StatementCode(V08, bare, isSc, isIndent, indent, track);
  }
}
