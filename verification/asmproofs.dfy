/** What the two passes of the assembler guarantee together: the first pass
    binds each label to the number of instruction lines before its (last)
    definition, the second pass numbers its records 0, 1, 2, ... and its
    errors by line, and on a program without errors both passes count the
    same lines, so a label defined once resolves to the same address before
    and after its definition. */
module AssemblyProofs {
  import opened Text
  import opened Isa
  import opened Assembly

  /** A line that has text after its label: the first pass counts it. */
  predicate Bears(line: string)
  {
    Clean(line).Code? && Clean(line).body != []
  }

  /** `line` defines label `name`. */
  predicate Defines(line: string, name: string)
  {
    name in LabelOf(line)
  }

  /** How many of the lines have text after their label. */
  function CountBearing(lines: seq<string>): (n: nat)
    ensures n <= |lines|
    decreases |lines|
  {
    if lines == [] then 0
    else CountBearing(lines[..|lines| - 1]) + (if Bears(lines[|lines| - 1]) then 1 else 0)
  }

  // ---------------------------------------------------------------- the front of a line

  /** Where the label and the body of a line come from: with u the stripped
      line cut at its first ';', a line that is not blank has a label
      exactly when u holds a ':'; the label is then the stripped text before
      the first ':' and the body the stripped text after it; without a
      label the body is u. */
  lemma CleanSplits(line: string)
    ensures var u := CommentCut(Strip(line));
            Clean(line).Code? ==> (Clean(line).labelName.Some? <==> ':' in u)
    ensures var u := CommentCut(Strip(line));
            Clean(line).Code? && Clean(line).labelName.Some? ==>
              exists k :: 0 <= k < |u| && u[k] == ':' && ':' !in u[..k]
                && Clean(line).labelName.value == Strip(u[..k]) && Clean(line).body == Strip(u[k + 1..])
    ensures Clean(line).Code? && Clean(line).labelName.None? ==> Clean(line).body == CommentCut(Strip(line))
  {
    var t := Strip(line);
    if t != [] && t[0] != ';' {
      var u := CommentCut(t);
      match Find(u, ':')
      case Some(k) =>
        assert Clean(line) == Code(Some(Strip(u[..k])), Strip(u[k + 1..]));
      case None =>
        assert Clean(line) == Code(None, u);
    }
  }

  /** What the front of `parse_line` makes of a line: it is blank exactly
      when the stripped line is empty or starts with ';'; otherwise the body
      is stripped and holds no ';' (the comment is cut off first); a label,
      taken from before the first ':' as CleanSplits states, holds neither
      ';' nor ':' and is stripped; and without a label the body holds no
      ':'. */
  lemma CleanParts(line: string)
    ensures var t := Strip(line);
            Clean(line).Blank? <==> t == [] || t[0] == ';'
    ensures Clean(line).Code? ==> ';' !in Clean(line).body && Strip(Clean(line).body) == Clean(line).body
    ensures Clean(line).Code? && Clean(line).labelName.Some? ==>
              var name := Clean(line).labelName.value;
              ';' !in name && ':' !in name && Strip(name) == name
    ensures Clean(line).Code? && Clean(line).labelName.None? ==> ':' !in Clean(line).body
  {
    var t := Strip(line);
    if t != [] && t[0] != ';' {
      StripStripped(line);
      var u := CommentCut(t);
      match Find(u, ':')
      case Some(k) =>
        var before, after := u[..k], u[k + 1..];
        assert ';' !in before && ';' !in after by {
          forall i | 0 <= i < |before| ensures before[i] != ';' {
            assert before[i] == u[i];
          }
          forall i | 0 <= i < |after| ensures after[i] != ';' {
            assert after[i] == u[k + 1 + i];
          }
        }
        StripKeepsOut(before, ';');
        StripKeepsOut(before, ':');
        StripKeepsOut(after, ';');
        StripStripped(before);
        StripStripped(after);
        assert Clean(line) == Code(Some(Strip(before)), Strip(after));
      case None =>
        assert Clean(line) == Code(None, u);
    }
  }

  // ---------------------------------------------------------------- one line

  /** A line that defines a label binds it to the counter it was read with. */
  lemma ParseLineBinds(labels: map<string, nat>, variables: map<string, int>, counter: nat, line: string, name: string)
    requires Defines(line, name)
    ensures var p := ParseLine(labels, variables, counter, line);
            name in p.labels && p.labels[name] == counter
  {
    var c := Clean(line);
    assert c.Code? && c.labelName == Some(name);
    assert ParseLine(labels, variables, counter, line) == ParseCode(labels, variables, counter, c.labelName, c.body);
  }

  /** Without errors, `parse_line` advances the counter exactly on the lines
      the first pass counts. */
  lemma ParseLineCounts(labels: map<string, nat>, variables: map<string, int>, counter: nat, line: string)
    requires ParseLine(labels, variables, counter, line).result.Success?
    ensures ParseLine(labels, variables, counter, line).counter == counter + (if Bears(line) then 1 else 0)
  {
    var c := Clean(line);
    if c.Code? {
      assert ParseLine(labels, variables, counter, line) == ParseCode(labels, variables, counter, c.labelName, c.body);
      if c.body != [] {
        WordsNonEmpty(c.body);
      }
    }
  }

  // ---------------------------------------------------------------- first pass

  /** The first pass counts exactly the lines with text after their label. */
  lemma {:induction false} Pass1Counts(lines: seq<string>)
    ensures Pass1(lines).counter == CountBearing(lines)
    decreases |lines|
  {
    if lines != [] {
      Pass1Counts(lines[..|lines| - 1]);
    }
  }

  /** A label is bound, after the first pass, to the number of counted lines
      before its last definition. */
  lemma {:induction false} Pass1Binds(lines: seq<string>, name: string, i: nat)
    requires i < |lines| && Defines(lines[i], name)
    requires forall j :: i < j < |lines| ==> !Defines(lines[j], name)
    ensures name in Pass1(lines).labels && Pass1(lines).labels[name] == CountBearing(lines[..i])
    decreases |lines|
  {
    var n := |lines| - 1;
    if i == n {
      Pass1BindsLast(lines, name);
    } else {
      var init := lines[..n];
      LineBinds(Pass1(init), Clean(lines[n]), name);
      Pass1Binds(init, name, i);
      assert init[..i] == lines[..i];
    }
  }

  /** A label the last line defines is bound to the number of counted lines before it. */
  lemma Pass1BindsLast(lines: seq<string>, name: string)
    requires lines != [] && Defines(lines[|lines| - 1], name)
    ensures name in Pass1(lines).labels && Pass1(lines).labels[name] == CountBearing(lines[..|lines| - 1])
  {
    var init := lines[..|lines| - 1];
    LineBinds(Pass1(init), Clean(lines[|lines| - 1]), name);
    Pass1Counts(init);
  }

  /** One line of the first pass binds the label it defines to the counter
      and leaves every other binding. */
  lemma LineBinds(p: Pass1State, c: Line, name: string)
    ensures var q := Pass1Line(p, c);
            && (c.Code? && c.labelName == Some(name) ==> name in q.labels && q.labels[name] == p.counter)
            && (!(c.Code? && c.labelName == Some(name)) && name in p.labels ==> name in q.labels && q.labels[name] == p.labels[name])
  {
  }

  /** A name no line defines is not in the first pass's table. */
  lemma {:induction false} Pass1Unbound(lines: seq<string>, name: string)
    requires forall j :: 0 <= j < |lines| ==> !Defines(lines[j], name)
    ensures name !in Pass1(lines).labels
    decreases |lines|
  {
    if lines != [] {
      Pass1Unbound(lines[..|lines| - 1], name);
    }
  }

  // ---------------------------------------------------------------- second pass

  /** How the second pass's state `q` after line number `n` relates to the
      state `p` before it: at most one more record, which gets the counter as
      address and advances it, and at most one more error, tagged with `n`,
      on a line that gave no record. */
  predicate Extends(p: Pass2State, q: Pass2State, n: nat)
  {
    && (|| (q.records == p.records && q.counter == p.counter)
        || (&& |q.records| == |p.records| + 1 && q.records == p.records + [q.records[|p.records|]]
            && q.records[|p.records|].address == p.counter && q.counter == p.counter + 1))
    && (|| q.errors == p.errors
        || (&& |q.errors| == |p.errors| + 1 && q.errors == p.errors + [q.errors[|p.errors|]]
            && q.errors[|p.errors|].line == n && q.records == p.records))
  }

  /** One more line extends the second pass's state in that way. */
  lemma Pass2Step(initial: map<string, nat>, lines: seq<string>)
    requires lines != []
    ensures Extends(Pass2(initial, lines[..|lines| - 1]), Pass2(initial, lines), |lines|)
  {
    var n := |lines| - 1;
    var p := Pass2(initial, lines[..n]);
    assert Pass2(initial, lines) == Pass2Line(p, |lines|, lines[n]);
    LineExtends(p, |lines|, lines[n]);
  }

  /** The step of the second pass on one line is such an extension. */
  lemma LineExtends(p: Pass2State, n: nat, line: string)
    ensures Extends(p, Pass2Line(p, n, line), n)
  {
    var r := ParseLine(p.labels, map[], p.counter, line);
    var q := Pass2Line(p, n, line);
    assert q.counter == r.counter;
  }

  /** Records numbered from 0 up to the counter stay so under an extension. */
  lemma RecordsExtend(p: Pass2State, q: Pass2State, n: nat)
    requires Extends(p, q, n)
    requires p.counter == |p.records| && forall j :: 0 <= j < |p.records| ==> p.records[j].address == j
    ensures q.counter == |q.records| && forall j :: 0 <= j < |q.records| ==> q.records[j].address == j
  {
    if q.records != p.records {
      forall j | 0 <= j < |q.records|
        ensures q.records[j].address == j
      {
        if j < |p.records| {
          assert q.records[j] == p.records[j];
        }
      }
    }
  }

  /** Errors tagged below line `n` in increasing order stay ordered under an
      extension by line `n`, and records plus errors grow by at most one. */
  lemma ErrorsExtend(p: Pass2State, q: Pass2State, n: nat)
    requires Extends(p, q, n) && n >= 1
    requires forall e :: 0 <= e < |p.errors| ==> 1 <= p.errors[e].line < n
    requires forall e, f :: 0 <= e < f < |p.errors| ==> p.errors[e].line < p.errors[f].line
    requires |p.records| + |p.errors| <= n - 1
    ensures forall e :: 0 <= e < |q.errors| ==> 1 <= q.errors[e].line <= n
    ensures forall e, f :: 0 <= e < f < |q.errors| ==> q.errors[e].line < q.errors[f].line
    ensures |q.records| + |q.errors| <= n
  {
    if q.errors != p.errors {
      forall e | 0 <= e < |q.errors|
        ensures q.errors[e] == if e < |p.errors| then p.errors[e] else q.errors[|p.errors|]
      {
      }
    }
  }

  /** The second pass numbers its records 0, 1, 2, ... and leaves the counter
      at their number. */
  lemma {:induction false} Pass2Records(initial: map<string, nat>, lines: seq<string>)
    ensures var p := Pass2(initial, lines);
            && p.counter == |p.records|
            && (forall j :: 0 <= j < |p.records| ==> p.records[j].address == j)
    decreases |lines|
  {
    if lines != [] {
      var init := lines[..|lines| - 1];
      Pass2Records(initial, init);
      Pass2Step(initial, lines);
      RecordsExtend(Pass2(initial, init), Pass2(initial, lines), |lines|);
    }
  }

  /** Errors carry increasing line numbers from 1 to |lines|, at most one per
      line, and a line gives a record or an error but not both. */
  lemma {:induction false} Pass2Errors(initial: map<string, nat>, lines: seq<string>)
    ensures var p := Pass2(initial, lines);
            && (forall e :: 0 <= e < |p.errors| ==> 1 <= p.errors[e].line <= |lines|)
            && (forall e, f :: 0 <= e < f < |p.errors| ==> p.errors[e].line < p.errors[f].line)
            && |p.records| + |p.errors| <= |lines|
    decreases |lines|
  {
    if lines != [] {
      var init := lines[..|lines| - 1];
      Pass2Errors(initial, init);
      Pass2Step(initial, lines);
      ErrorsExtend(Pass2(initial, init), Pass2(initial, lines), |lines|);
    }
  }

  /** Records and errors only grow: the second pass over a prefix of the
      lines produced a prefix of them. */
  lemma {:induction false} Pass2Grows(initial: map<string, nat>, lines: seq<string>, k: nat)
    requires k <= |lines|
    ensures Pass2(initial, lines[..k]).records <= Pass2(initial, lines).records
    ensures Pass2(initial, lines[..k]).errors <= Pass2(initial, lines).errors
    decreases |lines|
  {
    if k == |lines| {
      assert lines[..k] == lines;
    } else {
      var init := lines[..|lines| - 1];
      assert init[..k] == lines[..k];
      Pass2Grows(initial, init, k);
      Pass2Step(initial, lines);
      GrowsThrough(Pass2(initial, lines[..k]), Pass2(initial, init), Pass2(initial, lines), |lines|);
    }
  }

  /** An extension keeps any prefix of the records and errors it started from. */
  lemma GrowsThrough(a: Pass2State, p: Pass2State, q: Pass2State, n: nat)
    requires a.records <= p.records && a.errors <= p.errors
    requires Extends(p, q, n)
    ensures a.records <= q.records && a.errors <= q.errors
  {
  }

  // ---------------------------------------------------------------- both passes

  /** When the second pass rejects no line, it counts the same lines as the first. */
  lemma {:induction false} CountersAgree(initial: map<string, nat>, lines: seq<string>)
    requires Pass2(initial, lines).errors == []
    ensures Pass2(initial, lines).counter == Pass1(lines).counter
    decreases |lines|
  {
    if lines != [] {
      var n := |lines| - 1;
      var init := lines[..n];
      var p := Pass2(initial, init);
      assert Pass2(initial, lines) == Pass2Line(p, |lines|, lines[n]);
      assert p.errors == [];
      CountersAgree(initial, init);
      ParseLineCounts(p.labels, map[], p.counter, lines[n]);
      Pass1Counts(lines);
      Pass1Counts(init);
    }
  }

  /** The table the second pass holds before line k, for a label defined on
      line i only, when no line is rejected. */
  lemma LabelStable(lines: seq<string>, name: string, i: nat, k: nat)
    requires Pass2(Pass1(lines).labels, lines).errors == []
    requires i < |lines| && Defines(lines[i], name)
    requires forall j :: 0 <= j < |lines| && j != i ==> !Defines(lines[j], name)
    requires k <= |lines|
    ensures name in Pass1(lines).labels
    ensures var table := Pass2(Pass1(lines).labels, lines[..k]).labels;
            name in table && table[name] == Pass1(lines).labels[name]
  {
    var first := Pass1(lines).labels;
    Pass1Binds(lines, name, i);
    if k <= i {
      KeptBefore(first, lines, name, k);
    } else {
      KeptAfter(first, lines, name, i, k);
      BoundOnItsLine(first, lines, name, i);
      NoEarlierErrors(first, lines, i);
      CountersAgree(first, lines[..i]);
      Pass1Counts(lines[..i]);
    }
  }

  /** Before any line defines it, a name keeps the binding the second pass started with. */
  lemma {:induction false} KeptBefore(first: map<string, nat>, lines: seq<string>, name: string, k: nat)
    requires name in first && k <= |lines|
    requires forall j :: 0 <= j < k ==> !Defines(lines[j], name)
    ensures var table := Pass2(first, lines[..k]).labels;
            name in table && table[name] == first[name]
    decreases k
  {
    if k == 0 {
      assert lines[..0] == [];
    } else {
      var j := k - 1;
      KeptBefore(first, lines, name, j);
      assert !Defines(lines[j], name);
      LineKeeps(first, lines, j, name);
      assert j + 1 == k;
    }
  }

  /** After line i defines a name, and until another line does, the second
      pass keeps the binding line i made. */
  lemma {:induction false} KeptAfter(first: map<string, nat>, lines: seq<string>, name: string, i: nat, k: nat)
    requires i < k <= |lines| && Defines(lines[i], name)
    requires forall j :: i < j < k ==> !Defines(lines[j], name)
    ensures var table := Pass2(first, lines[..k]).labels;
            name in table && name in Pass2(first, lines[..i + 1]).labels
            && table[name] == Pass2(first, lines[..i + 1]).labels[name]
    decreases k
  {
    if k == i + 1 {
      BoundOnItsLine(first, lines, name, i);
    } else {
      var j := k - 1;
      KeptAfter(first, lines, name, i, j);
      assert !Defines(lines[j], name);
      LineKeeps(first, lines, j, name);
      assert j + 1 == k;
    }
  }

  /** The line that defines a name binds it to the counter it was read with. */
  lemma BoundOnItsLine(first: map<string, nat>, lines: seq<string>, name: string, i: nat)
    requires i < |lines| && Defines(lines[i], name)
    ensures var table := Pass2(first, lines[..i + 1]).labels;
            name in table && table[name] == Pass2(first, lines[..i]).counter
  {
    var p := Pass2(first, lines[..i]);
    ParseLineBinds(p.labels, map[], p.counter, lines[i], name);
    LineOutcome(first, lines, i);
  }

  /** A line of the second pass that does not define a name keeps its binding. */
  lemma LineKeeps(first: map<string, nat>, lines: seq<string>, j: nat, name: string)
    requires j < |lines| && name in Pass2(first, lines[..j]).labels && !Defines(lines[j], name)
    ensures name in Pass2(first, lines[..j + 1]).labels
    ensures Pass2(first, lines[..j + 1]).labels[name] == Pass2(first, lines[..j]).labels[name]
  {
    var p := Pass2(first, lines[..j]);
    LabelKept(p.labels, p.counter, lines[j], name);
    LineOutcome(first, lines, j);
  }

  /** A line that does not define a label keeps its binding. */
  lemma LabelKept(labels: map<string, nat>, counter: nat, line: string, name: string)
    requires name in labels && !Defines(line, name)
    ensures var p := ParseLine(labels, map[], counter, line);
            name in p.labels && p.labels[name] == labels[name]
  {
  }

  /** Forward and backward references agree: for a label defined on exactly
      one line of an error-free program, the table used for every line of
      the second pass gives the address the first pass computed. */
  lemma LabelsAgree(lines: seq<string>, name: string, i: nat)
    requires Pass2(Pass1(lines).labels, lines).errors == []
    requires i < |lines| && Defines(lines[i], name)
    requires forall j :: 0 <= j < |lines| && j != i ==> !Defines(lines[j], name)
    ensures name in Pass1(lines).labels && Pass1(lines).labels[name] == CountBearing(lines[..i])
    ensures forall k :: 0 <= k <= |lines| ==>
              var table := Pass2(Pass1(lines).labels, lines[..k]).labels;
              name in table && table[name] == Pass1(lines).labels[name]
  {
    Pass1Binds(lines, name, i);
    forall k | 0 <= k <= |lines|
      ensures var table := Pass2(Pass1(lines).labels, lines[..k]).labels;
              name in table && table[name] == Pass1(lines).labels[name]
    {
      LabelStable(lines, name, i, k);
    }
  }

  // ---------------------------------------------------------------- assemble

  /** `assemble` either returns one record per counted line, numbered from 0,
      or a non-empty list of errors with increasing line numbers. */
  lemma AssembleShape(source: string)
    ensures var lines := Split(source, '\n');
            match Assemble(source)
            case Success(records) =>
              && |records| == CountBearing(lines)
              && (forall j :: 0 <= j < |records| ==> records[j].address == j)
            case Failure(errors) =>
              && errors != []
              && (forall e :: 0 <= e < |errors| ==> 1 <= errors[e].line <= |lines|)
              && (forall e, f :: 0 <= e < f < |errors| ==> errors[e].line < errors[f].line)
  {
    var lines := Split(source, '\n');
    var first := Pass1(lines).labels;
    Pass2Records(first, lines);
    Pass2Errors(first, lines);
    if Pass2(first, lines).errors == [] {
      CountersAgree(first, lines);
      Pass1Counts(lines);
    }
  }

  // ---------------------------------------------------------------- line by line

  /** What `parse_line` makes of line number i + 1 in the second pass, read
      with the table and counter the lines before it left. */
  function LineResult(initial: map<string, nat>, lines: seq<string>, i: nat): Parsed
    requires i < |lines|
  {
    var p := Pass2(initial, lines[..i]);
    ParseLine(p.labels, map[], p.counter, lines[i])
  }

  /** The reason the second pass rejects line number i + 1, if it does. */
  function Verdict(initial: map<string, nat>, lines: seq<string>, i: nat): Option<AsmError>
    requires i < |lines|
  {
    var r := LineResult(initial, lines, i).result;
    if r.Failure? then Some(r.error) else None
  }

  /** One line of the second pass: a rejected line adds exactly one error,
      with its number and `parse_line`'s reason; an instruction adds exactly
      its record; nothing else is added. */
  lemma LineOutcome(initial: map<string, nat>, lines: seq<string>, i: nat)
    requires i < |lines|
    ensures var p := Pass2(initial, lines[..i]);
            var q := Pass2(initial, lines[..i + 1]);
            var r := LineResult(initial, lines, i).result;
            && q.errors == p.errors + (if r.Failure? then [LineError(i + 1, r.error)] else [])
            && q.records == p.records + (if r.Success? && r.value.Some? then [r.value.value] else [])
            && q.labels == LineResult(initial, lines, i).labels
            && q.counter == LineResult(initial, lines, i).counter
  {
    PassesExtend(initial, lines, i);
  }

  /** `err` names a line of `lines` that the second pass rejects, with the reason. */
  predicate Justified(initial: map<string, nat>, lines: seq<string>, err: LineError)
  {
    1 <= err.line <= |lines| && Verdict(initial, lines, err.line - 1) == Some(err.error)
  }

  /** Errors the second pass adds after the first k lines carry line numbers above k. */
  lemma {:induction false} LaterErrors(initial: map<string, nat>, lines: seq<string>, k: nat)
    requires k <= |lines|
    ensures var errors := Pass2(initial, lines).errors;
            forall e :: |Pass2(initial, lines[..k]).errors| <= e < |errors| ==> errors[e].line > k
    decreases |lines|
  {
    if k == |lines| {
      assert lines[..k] == lines;
    } else {
      var init := lines[..|lines| - 1];
      assert init[..k] == lines[..k];
      LaterErrors(initial, init, k);
      Pass2Step(initial, lines);
      Pass2Grows(initial, init, k);
    }
  }

  /** Line number i + 1 is reported exactly when it is rejected, and every
      report carrying its number gives `parse_line`'s reason. */
  lemma LineReported(initial: map<string, nat>, lines: seq<string>, i: nat)
    requires i < |lines|
    ensures Verdict(initial, lines, i).Some? ==>
              LineError(i + 1, Verdict(initial, lines, i).value) in Pass2(initial, lines).errors
    ensures forall e :: 0 <= e < |Pass2(initial, lines).errors| && Pass2(initial, lines).errors[e].line == i + 1 ==>
              Verdict(initial, lines, i) == Some(Pass2(initial, lines).errors[e].error)
  {
    var before := Pass2(initial, lines[..i]).errors;
    var through := Pass2(initial, lines[..i + 1]).errors;
    var errors := Pass2(initial, lines).errors;
    LineOutcome(initial, lines, i);
    Pass2Errors(initial, lines[..i]);
    Pass2Grows(initial, lines, i + 1);
    LaterErrors(initial, lines, i + 1);
    forall e | 0 <= e < |errors| && errors[e].line == i + 1
      ensures Verdict(initial, lines, i) == Some(errors[e].error)
    {
      assert e < |through|;
      if e < |before| {
        assert false;
      }
      assert errors[e] == through[|before|];
    }
    if Verdict(initial, lines, i).Some? {
      assert errors[|before|] == through[|before|];
    }
  }

  /** The errors of the second pass are exactly the rejected lines: each
      rejected line is reported with its number and `parse_line`'s reason,
      and every report names a rejected line and its reason. */
  lemma ErrorsExactlyRejected(initial: map<string, nat>, lines: seq<string>)
    ensures forall i :: 0 <= i < |lines| && Verdict(initial, lines, i).Some? ==>
              LineError(i + 1, Verdict(initial, lines, i).value) in Pass2(initial, lines).errors
    ensures forall e :: 0 <= e < |Pass2(initial, lines).errors| ==> Justified(initial, lines, Pass2(initial, lines).errors[e])
  {
    var errors := Pass2(initial, lines).errors;
    forall i | 0 <= i < |lines| && Verdict(initial, lines, i).Some?
      ensures LineError(i + 1, Verdict(initial, lines, i).value) in errors
    {
      LineReported(initial, lines, i);
    }
    forall e | 0 <= e < |errors|
      ensures Justified(initial, lines, errors[e])
    {
      ErrorJustified(initial, lines, e);
    }
  }

  /** Each report of the second pass names a rejected line and its reason. */
  lemma ErrorJustified(initial: map<string, nat>, lines: seq<string>, e: nat)
    requires e < |Pass2(initial, lines).errors|
    ensures Justified(initial, lines, Pass2(initial, lines).errors[e])
  {
    var n := Pass2(initial, lines).errors[e].line;
    Pass2Errors(initial, lines);
    var i := n - 1;
    LineReported(initial, lines, i);
    assert i + 1 == n;
  }

  /** The second pass rejects nothing before a point where it has rejected nothing. */
  lemma NoEarlierErrors(initial: map<string, nat>, lines: seq<string>, k: nat)
    requires k <= |lines| && Pass2(initial, lines).errors == []
    ensures Pass2(initial, lines[..k]).errors == []
  {
    Pass2Grows(initial, lines, k);
  }

  /** In a pass without errors, a line with text after its label gives the
      record numbered by the counted lines before it, and any other line
      gives none. */
  lemma RecordOfLine(initial: map<string, nat>, lines: seq<string>, k: nat)
    requires k < |lines| && Pass2(initial, lines).errors == []
    ensures var records := Pass2(initial, lines).records;
            var r := LineResult(initial, lines, k).result;
            && (Bears(lines[k]) ==>
                  CountBearing(lines[..k]) < |records| && r == Success(Some(records[CountBearing(lines[..k])])))
            && (!Bears(lines[k]) ==> r == Success(None))
  {
    var p := Pass2(initial, lines[..k]);
    var r := LineResult(initial, lines, k);
    NoEarlierErrors(initial, lines, k);
    NoEarlierErrors(initial, lines, k + 1);
    LineOutcome(initial, lines, k);
    assert r.result.Success?;
    ParseLineCounts(p.labels, map[], p.counter, lines[k]);
    if Bears(lines[k]) {
      Pass2Grows(initial, lines, k + 1);
      Pass2Records(initial, lines[..k]);
      CountersAgree(initial, lines[..k]);
      Pass1Counts(lines[..k]);
      assert Pass2(initial, lines[..k + 1]).records[|p.records|] == r.result.value.value;
    }
  }

  /** `assemble` succeeds only when no line is rejected; when it fails it
      reports each rejected line, with its number and reason, and nothing
      else, so it fails exactly when some line is rejected. */
  lemma AssembleReports(source: string)
    ensures var lines := Split(source, '\n');
            var first := Pass1(lines).labels;
            && (Assemble(source).Success? ==> forall i :: 0 <= i < |lines| ==> Verdict(first, lines, i).None?)
            && (Assemble(source).Failure? ==>
                  && Assemble(source).error != []
                  && (forall i :: 0 <= i < |lines| && Verdict(first, lines, i).Some? ==>
                        LineError(i + 1, Verdict(first, lines, i).value) in Assemble(source).error)
                  && (forall e :: 0 <= e < |Assemble(source).error| ==> Justified(first, lines, Assemble(source).error[e])))
  {
    var lines := Split(source, '\n');
    var first := Pass1(lines).labels;
    var p := Pass2(first, lines);
    assert Assemble(source) == if p.errors != [] then Failure(p.errors) else Success(p.records);
    ErrorsExactlyRejected(first, lines);
    if p.errors == [] {
      forall i | 0 <= i < |lines|
        ensures Verdict(first, lines, i).None?
      {
        LineReported(first, lines, i);
      }
    }
  }

  /** A successful `assemble` holds, at index j, the instruction `parse_line`
      reads from the j-th line with text after its label (counting from 0),
      and no line is rejected. */
  lemma AssembleRecords(source: string)
    ensures var lines := Split(source, '\n');
            var first := Pass1(lines).labels;
            Assemble(source).Success? ==>
              forall k :: 0 <= k < |lines| ==>
                var records := Assemble(source).value;
                var r := LineResult(first, lines, k).result;
                && (Bears(lines[k]) ==>
                      CountBearing(lines[..k]) < |records| && r == Success(Some(records[CountBearing(lines[..k])])))
                && (!Bears(lines[k]) ==> r == Success(None))
  {
    var lines := Split(source, '\n');
    var first := Pass1(lines).labels;
    if Assemble(source).Success? {
      forall k | 0 <= k < |lines|
        ensures var records := Assemble(source).value;
                var r := LineResult(first, lines, k).result;
                && (Bears(lines[k]) ==>
                      CountBearing(lines[..k]) < |records| && r == Success(Some(records[CountBearing(lines[..k])])))
                && (!Bears(lines[k]) ==> r == Success(None))
      {
        RecordOfLine(first, lines, k);
      }
    }
  }

  // ---------------------------------------------------------------- operand and mnemonic classes

  /** "#...": immediate syntax. */
  predicate ImmediateSyntax(s: string)
  {
    |s| > 0 && s[0] == '#'
  }

  /** "(...)": indirect syntax. */
  predicate IndirectSyntax(s: string)
  {
    |s| >= 2 && s[0] == '(' && s[|s| - 1] == ')'
  }

  /** "R" and at least one more character: register syntax. */
  predicate RegisterSyntax(s: string)
  {
    |s| >= 2 && s[0] == 'R'
  }

  /** None of the three: a number, a name or an integer literal. */
  predicate PlainSyntax(s: string)
  {
    !ImmediateSyntax(s) && !IndirectSyntax(s) && !RegisterSyntax(s)
  }

  /** The stripped text between the parentheses. */
  function Inner(s: string): string
    requires IndirectSyntax(s)
  {
    Strip(s[1..|s| - 1])
  }

  /** `parse_operand` on each syntax class. */
  lemma OperandByClass(labels: map<string, nat>, variables: map<string, int>, text: string)
    ensures var s := Strip(text);
            var r := ParseOperand(labels, variables, text);
            && (ImmediateSyntax(s) ==>
                  r == if ParseInt(s[1..]).Some? then Success(Operand(ParseInt(s[1..]).value, Immediate))
                       else Failure(BadInteger(s[1..])))
            && (IndirectSyntax(s) ==>
                  r == if IsDigits(Inner(s)) then Success(Operand(DigitsValue(Inner(s)), Indirect))
                       else if Inner(s) in labels then Success(Operand(labels[Inner(s)], Indirect))
                       else Failure(UnknownLabel(Inner(s))))
            && (RegisterSyntax(s) ==>
                  r == if !IsDigits(s[1..]) then Failure(BadRegisterFormat(s))
                       else if DigitsValue(s[1..]) <= 15 then Success(Operand(DigitsValue(s[1..]), Register))
                       else Failure(BadRegisterNumber(s)))
            && (PlainSyntax(s) ==>
                  r == if IsDigits(s) then Success(Operand(DigitsValue(s), Direct))
                       else if s in labels then Success(Operand(labels[s], Direct))
                       else if s in variables then Success(Operand(variables[s], Direct))
                       else if ParseInt(s).Some? then Success(Operand(ParseInt(s).value, Direct))
                       else Failure(UnknownOperand(s)))
  {
    var s := Strip(text);
    if ImmediateSyntax(s) {
    } else if IndirectSyntax(s) {
    } else if RegisterSyntax(s) {
    } else {
      assert PlainSyntax(s);
    }
  }

  /** The addressing type of an accepted operand is fixed by its first
      character alone: '#' immediate, "(...)" indirect, "R" and more
      register, anything else direct. */
  lemma OperandKinds(labels: map<string, nat>, variables: map<string, int>, text: string)
    ensures var s := Strip(text);
            var r := ParseOperand(labels, variables, text);
            r.Success? ==>
              && (r.value.kind == Immediate <==> ImmediateSyntax(s))
              && (r.value.kind == Indirect <==> IndirectSyntax(s))
              && (r.value.kind == Register <==> RegisterSyntax(s))
              && (r.value.kind == Direct <==> PlainSyntax(s))
  {
    OperandByClass(labels, variables, text);
  }

  /** The value of an accepted operand: `int()` of the text after '#'; the
      number or the label's address between the parentheses; the register
      number; and for a direct operand, in this order of preference, the
      number, the label's address, the variable's value or the integer
      literal. */
  lemma OperandValues(labels: map<string, nat>, variables: map<string, int>, text: string)
    ensures var s := Strip(text);
            var r := ParseOperand(labels, variables, text);
            var v := if r.Success? then r.value.value else 0;
            && (r.Success? && r.value.kind == Immediate ==> ImmediateSyntax(s) && ParseInt(s[1..]) == Some(v))
            && (r.Success? && r.value.kind == Indirect ==>
                  && IndirectSyntax(s)
                  && (IsDigits(Inner(s)) ==> v == DigitsValue(Inner(s)))
                  && (!IsDigits(Inner(s)) ==> Inner(s) in labels && v == labels[Inner(s)]))
            && (r.Success? && r.value.kind == Register ==>
                  RegisterSyntax(s) && IsDigits(s[1..]) && v == DigitsValue(s[1..]) <= 15)
            && (r.Success? && r.value.kind == Direct ==>
                  && (IsDigits(s) ==> v == DigitsValue(s))
                  && (!IsDigits(s) && s in labels ==> v == labels[s])
                  && (!IsDigits(s) && s !in labels && s in variables ==> v == variables[s])
                  && (!IsDigits(s) && s !in labels && s !in variables ==> ParseInt(s) == Some(v)))
  {
    OperandByClass(labels, variables, text);
  }

  /** Each rejection of `parse_operand` and exactly when it happens: text
      after '#' that `int()` refuses; a parenthesised name that is neither
      digits nor a label; register syntax with a number above 15, or with
      anything but digits after the "R" (even when the whole text is a
      label); and plain text that is not a number, a label, a variable or an
      integer literal. */
  lemma OperandErrors(labels: map<string, nat>, variables: map<string, int>, text: string)
    ensures var s := Strip(text);
            var r := ParseOperand(labels, variables, text);
            && (r.Failure? && r.error.BadInteger? <==> ImmediateSyntax(s) && ParseInt(s[1..]).None?)
            && (r.Failure? && r.error.BadInteger? ==> |s| > 0 && r.error.text == s[1..])
            && (r.Failure? && r.error.UnknownLabel? <==>
                  IndirectSyntax(s) && !IsDigits(Inner(s)) && Inner(s) !in labels)
            && (r.Failure? && r.error.UnknownLabel? ==> IndirectSyntax(s) && r.error.name == Inner(s))
            && (r.Failure? && r.error.BadRegisterNumber? <==>
                  RegisterSyntax(s) && IsDigits(s[1..]) && DigitsValue(s[1..]) > 15)
            && (r.Failure? && r.error.BadRegisterFormat? <==> RegisterSyntax(s) && !IsDigits(s[1..]))
            && (r.Failure? && r.error.UnknownOperand? <==>
                  PlainSyntax(s) && !IsDigits(s) && s !in labels && s !in variables && ParseInt(s).None?)
            && (r.Failure? && (r.error.BadRegisterNumber? || r.error.BadRegisterFormat? || r.error.UnknownOperand?) ==>
                  r.error.text == s)
            && (r.Failure? ==> !r.error.UnknownMnemonic? && !r.error.MissingOperand?)
  {
    var s := Strip(text);
    OperandByClass(labels, variables, text);
    if ImmediateSyntax(s) {
    } else if IndirectSyntax(s) {
    } else if RegisterSyntax(s) {
    } else {
      assert PlainSyntax(s);
    }
  }

  /** Register syntax comes before the label table: a label whose name is
      "R" followed by letters cannot be used as a direct operand. */
  lemma RegisterSyntaxFirst()
    ensures ParseOperand(map["RESULT" := 7], map[], "RESULT") == Failure(BadRegisterFormat("RESULT"))
  {
    assert Strip("RESULT") == "RESULT" by {
      StripNoSpace("RESULT");
    }
    assert !IsDigit("RESULT"[1]);
  }

  /** The rejections of a line body, given its words: a first word that is
      no mnemonic after upper-casing; a mnemonic other than HALT with no
      second word; and an operand `parse_operand` rejects, with its reason. */
  lemma TranslateRejects(labels: map<string, nat>, variables: map<string, int>, parts: seq<string>)
    ensures var r := TranslateWords(labels, variables, parts);
            var known := parts != [] && OpcodeOf(Upper(parts[0])).Some?;
            && (r.Failure? && r.error.UnknownMnemonic? <==> parts != [] && !known)
            && (r.Failure? && r.error.UnknownMnemonic? ==> parts != [] && r.error.mnemonic == Upper(parts[0]))
            && (r.Failure? && r.error.MissingOperand? <==>
                  known && OpcodeOf(Upper(parts[0])).value != OpHalt && |parts| == 1)
            && (r.Failure? && r.error.MissingOperand? ==> parts != [] && r.error.mnemonic == Upper(parts[0]))
            && (r.Failure? && !r.error.UnknownMnemonic? && !r.error.MissingOperand? <==>
                  && known && OpcodeOf(Upper(parts[0])).value != OpHalt && |parts| >= 2
                  && ParseOperand(labels, variables, parts[1]).Failure?)
            && (r.Failure? && !r.error.UnknownMnemonic? && !r.error.MissingOperand? ==>
                  |parts| >= 2 && ParseOperand(labels, variables, parts[1]) == Failure(r.error))
  {
    if parts != [] {
      var m := Upper(parts[0]);
      match OpcodeOf(m)
      case None =>
      case Some(op) =>
        if op != OpHalt && |parts| >= 2 {
          OperandErrors(labels, variables, parts[1]);
        }
    }
  }

  /** An accepted line body, given its words: the instruction's mnemonic is
      the upper-cased first word, its word encodes that mnemonic's opcode with
      the operand; HALT takes operand 0 of type none whatever follows it, and
      any other mnemonic takes the operand `parse_operand` reads from the
      second word (further words are ignored). */
  lemma TranslateAccepts(labels: map<string, nat>, variables: map<string, int>, parts: seq<string>)
    ensures var r := TranslateWords(labels, variables, parts);
            r.Success? && r.value.Some? ==>
              var i := r.value.value;
              && parts != [] && i.mnemonic == Upper(parts[0]) && OpcodeOf(i.mnemonic).Some?
              && i.word == Encode(OpcodeOf(i.mnemonic).value, i.operand, i.kind)
              && (OpcodeOf(i.mnemonic).value == OpHalt ==> i == Instr(0, "HALT", 0, NoOperand))
              && (OpcodeOf(i.mnemonic).value != OpHalt ==>
                    |parts| >= 2 && ParseOperand(labels, variables, parts[1]) == Success(Operand(i.operand, i.kind)))
  {
    if parts != [] {
      var m := Upper(parts[0]);
      match OpcodeOf(m)
      case None =>
      case Some(op) =>
        if op == OpHalt {
          HaltAccepted(labels, variables, parts);
        } else if |parts| >= 2 {
          match ParseOperand(labels, variables, parts[1])
          case Failure(_) =>
          case Success(o) => OperandAccepted(labels, variables, parts, op, o);
        }
    }
  }

  lemma HaltAccepted(labels: map<string, nat>, variables: map<string, int>, parts: seq<string>)
    requires parts != [] && OpcodeOf(Upper(parts[0])) == Some(OpHalt)
    ensures Upper(parts[0]) == "HALT"
    ensures TranslateWords(labels, variables, parts) == Success(Some(Instr(0, Upper(parts[0]), 0, NoOperand)))
  {
  }

  lemma OperandAccepted(labels: map<string, nat>, variables: map<string, int>, parts: seq<string>, op: nat, o: Operand)
    requires |parts| >= 2 && OpcodeOf(Upper(parts[0])) == Some(op) && op != OpHalt
    requires ParseOperand(labels, variables, parts[1]) == Success(o)
    ensures TranslateWords(labels, variables, parts) == Success(Some(Instr(Encode(op, o.value, o.kind), Upper(parts[0]), o.value, o.kind)))
  {
  }

  // ---------------------------------------------------------------- text round trips

  /** The mnemonics are upper case already, so `upper()` keeps them. */
  lemma UpperName(op: nat)
    requires Defined(op)
    ensures Upper(Name(op)) == Name(op)
  {
    var m := Name(op);
    assert m in ["HALT", "LOAD", "STORE", "ADD", "SUB", "CMP", "JMP", "JZ", "JNZ"];
    forall i | 0 <= i < |m|
      ensures UpperChar(m[i]) == m[i]
    {
    }
  }

  /** The text `format_program` writes for an operand is read back by
      `parse_operand` as the same value and addressing type, whatever the
      tables hold, as long as a negative direct operand is not also a name. */
  lemma OperandRoundTrip(labels: map<string, nat>, variables: map<string, int>, value: int, kind: OperandType)
    requires kind != NoOperand
    requires kind == Indirect ==> value >= 0
    requires kind == Register ==> 0 <= value <= 15
    requires kind == Direct && value < 0 ==> IntToString(value) !in labels && IntToString(value) !in variables
    ensures ParseOperand(labels, variables, OperandText(value, kind)) == Success(Operand(value, kind))
  {
    match kind
    case Immediate => ImmediateRoundTrip(labels, variables, value);
    case Indirect => IndirectRoundTrip(labels, variables, value);
    case Register => RegisterRoundTrip(labels, variables, value);
    case Direct => DirectRoundTrip(labels, variables, value);
  }

  /** "#n" reads back as immediate n, negative n included. */
  lemma ImmediateRoundTrip(labels: map<string, nat>, variables: map<string, int>, value: int)
    ensures ParseOperand(labels, variables, "#" + IntToString(value)) == Success(Operand(value, Immediate))
  {
    var digits := IntToString(value);
    var t := "#" + digits;
    assert t[0] == '#' && t[1..] == digits;
    StripNoSpace(t);
    ParseIntRoundTrip(value);
  }

  /** "(n)" reads back as indirect n. */
  lemma IndirectRoundTrip(labels: map<string, nat>, variables: map<string, int>, value: int)
    requires value >= 0
    ensures ParseOperand(labels, variables, "(" + IntToString(value) + ")") == Success(Operand(value, Indirect))
  {
    var digits := IntToString(value);
    var t := "(" + digits + ")";
    assert t[0] == '(' && t[|t| - 1] == ')' && t[1..|t| - 1] == digits;
    StripNoSpace(t);
    StripNoSpace(digits);
    DecimalValue(value);
  }

  /** "Rk" reads back as register k for k in 0..15. */
  lemma RegisterRoundTrip(labels: map<string, nat>, variables: map<string, int>, value: int)
    requires 0 <= value <= 15
    ensures ParseOperand(labels, variables, "R" + IntToString(value)) == Success(Operand(value, Register))
  {
    var digits := IntToString(value);
    var t := "R" + digits;
    assert t[0] == 'R' && t[1..] == digits && t[|t| - 1] == digits[|digits| - 1];
    StripNoSpace(t);
    DecimalValue(value);
  }

  /** "n" reads back as direct n; a negative n only when it is not a name. */
  lemma DirectRoundTrip(labels: map<string, nat>, variables: map<string, int>, value: int)
    requires value < 0 ==> IntToString(value) !in labels && IntToString(value) !in variables
    ensures ParseOperand(labels, variables, IntToString(value)) == Success(Operand(value, Direct))
  {
    var t := IntToString(value);
    StripNoSpace(t);
    if value >= 0 {
      DecimalValue(value);
    } else {
      assert t[0] == '-';
      ParseIntRoundTrip(value);
    }
  }

  /** The pieces `Translate` reads from a line "MNEMONIC operand" written by
      `format_program`: two words, the opcode of the first, the operand of
      the second. */
  lemma InstructionParts(labels: map<string, nat>, variables: map<string, int>, op: nat, value: int, kind: OperandType)
    requires Defined(op) && kind != NoOperand
    requires kind == Indirect ==> value >= 0
    requires kind == Register ==> 0 <= value <= 15
    requires kind == Direct && value < 0 ==> IntToString(value) !in labels && IntToString(value) !in variables
    ensures Words(Name(op) + " " + OperandText(value, kind)) == [Name(op), OperandText(value, kind)]
    ensures OpcodeOf(Upper(Name(op))) == Some(op)
    ensures ParseOperand(labels, variables, OperandText(value, kind)) == Success(Operand(value, kind))
  {
    assert Words(Name(op) + " " + OperandText(value, kind)) == [Name(op), OperandText(value, kind)] by {
      OperandTextIsWord(value, kind);
      WordsOfPair(Name(op), OperandText(value, kind));
    }
    assert OpcodeOf(Upper(Name(op))) == Some(op) by {
      UpperName(op);
      NameRoundTrip(op);
    }
    OperandRoundTrip(labels, variables, value, kind);
  }

  /** A line "MNEMONIC operand" in the form `format_program` writes the two
      parts assembles to the instruction it came from. */
  lemma InstructionRoundTrip(labels: map<string, nat>, variables: map<string, int>, op: nat, value: int, kind: OperandType)
    requires Defined(op) && op != OpHalt && kind != NoOperand
    requires kind == Indirect ==> value >= 0
    requires kind == Register ==> 0 <= value <= 15
    requires kind == Direct && value < 0 ==> IntToString(value) !in labels && IntToString(value) !in variables
    ensures var r := Translate(labels, variables, Name(op) + " " + OperandText(value, kind));
            && r.Success? && r.value.Some?
            && r.value.value == Instr(Encode(op, value, kind), Name(op), value, kind)
  {
    InstructionParts(labels, variables, op, value, kind);
    var r := Translate(labels, variables, Name(op) + " " + OperandText(value, kind));
    assert r.Success? && r.value.Some?;
    assert r.value.value.mnemonic == Name(op) && r.value.value.operand == value && r.value.value.kind == kind;
  }

  /** A listing line starts with the record's address and word as four
      hexadecimal digits each, which read back as those numbers. */
  lemma ListingReadsBack(r: Record)
    requires r.address < 0x10000 && r.word < 0x10000
    ensures var line := FormatRecord(r);
            && |line| > 10 && line[4..6] == ": " && line[10] == ' '
            && IsHex(line[..4]) && HexValue(line[..4]) == r.address
            && IsHex(line[6..10]) && HexValue(line[6..10]) == r.word
  {
    HexFour(r.address);
    HexFour(r.word);
    HeadFields(Hex(r.address, 4), Hex(r.word, 4), SourceColumns(r));
  }

  /** A number below 16^4 is written with exactly four digits, which read back as it. */
  lemma HexFour(n: nat)
    requires n < 0x10000
    ensures |Hex(n, 4)| == 4 && HexValue(Hex(n, 4)) == n
  {
    assert Pow16(4) == 0x10000;
    HexDigitsLength(n, 4);
    HexRoundTrip(n, 4);
  }

  /** Where the two four-character fields sit in "aaaa: wwww rest". */
  lemma HeadFields(a: string, w: string, rest: string)
    requires |a| == 4 && |w| == 4
    ensures var line := a + ": " + w + " " + rest;
            && |line| > 10 && line[..4] == a && line[4..6] == ": " && line[6..10] == w && line[10] == ' '
  {
    var line := a + ": " + w + " " + rest;
    var head := a + ": " + w + " ";
    assert line[..|head|] == head;
  }
}
