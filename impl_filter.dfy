/** The text rendering of an "impl" result: the type being edited, then one block of stub
    methods per super type that has methods, then a list of the super types that were not found. */
module ImplFilter {
  import opened Wrappers
  import opened Strings
  import opened Sequences

  /** The comment that heads the list of super types that could not be found. */
  const NOT_FOUND_HEADER: string :=
    "// The following types were not found, either because they were not\n" +
    "// imported or they were not found in the classpath."

  /** One method of a super type: its signature (possibly several lines) and whether the type
      being edited already implements it. */
  datatype ImplMethod = ImplMethod(signature: string, implemented: bool)

  /** A super type: `found` is false when the type could not be resolved; `methods` is null
      (`None`) or an array of methods. */
  datatype ImplType = ImplType(found: bool, package: string, signature: string,
                               methods: Option<seq<ImplMethod>>)

  /** The type being edited and its super types (a null list is `None`). */
  datatype ImplResult = ImplResult(typeName: string, superTypes: Option<seq<ImplType>>)

  /** The filter receives any object; only an impl result is rendered. */
  datatype FilterInput = Impl(result: ImplResult) | OtherObject

  /** The signature of a method as it appears in its block, before the leading tab: an
      implemented method is commented out (a `//` in front and after every tab), then every
      line break is followed by one more tab. */
  function RenderedSignature(m: ImplMethod): string
  {
    var commented := if m.implemented then "//" + Replace(m.signature, "\t", "\t//") else m.signature;
    Replace(commented, "\n", "\n\t")
  }

  /** The text one method contributes to its block. */
  function MethodLine(m: ImplMethod): string
  {
    "\t" + RenderedSignature(m)
  }

  function MethodLines(ms: seq<ImplMethod>): (r: seq<string>)
    ensures |r| == |ms|
  {
    seq(|ms|, i requires 0 <= i < |ms| => MethodLine(ms[i]))
  }

  /** The methods of a block, one after another with a single line break between neighbours. */
  function MethodsText(ms: seq<ImplMethod>): string
  {
    Join(MethodLines(ms), "\n")
  }

  /** The methods text of two non-empty runs of methods is the text of each with a single line
      break between: every method contributes its line and neighbours are one line break apart. */
  lemma MethodsTextAppend(a: seq<ImplMethod>, b: seq<ImplMethod>)
    requires |a| > 0 && |b| > 0
    ensures MethodsText(a + b) == MethodsText(a) + "\n" + MethodsText(b)
    ensures MethodsText([a[0]]) == MethodLine(a[0])
  {
    assert MethodLines(a + b) == MethodLines(a) + MethodLines(b);
    JoinAppend(MethodLines(a), MethodLines(b), "\n");
  }

  /** Whether a super type produces a block: its methods are neither null nor empty. */
  predicate HasBlock(t: ImplType)
  {
    t.methods.Some? && |t.methods.value| > 0
  }

  /** The block of one super type. */
  function Block(t: ImplType): string
    requires HasBlock(t)
  {
    "package " + t.package + ";\n" + t.signature + " {\n" + MethodsText(t.methods.value) + "\n}"
  }

  /** The blocks of the super types that have methods, in input order. */
  function Blocks(ts: seq<ImplType>): seq<string>
    decreases |ts|
  {
    if ts == [] then []
    else
      var last := ts[|ts| - 1];
      Blocks(ts[..|ts| - 1]) + if HasBlock(last) then [Block(last)] else []
  }

  /** The buffer after the super types `ts` have been visited, starting from `buffer`: a block is
      preceded by a blank line exactly when the buffer is not empty at that point. */
  function AppendBlocks(buffer: string, ts: seq<ImplType>): string
    decreases |ts|
  {
    if ts == [] then buffer
    else
      var before := AppendBlocks(buffer, ts[..|ts| - 1]);
      var last := ts[|ts| - 1];
      if !HasBlock(last) then before
      else (if |before| > 0 then before + "\n\n" else before) + Block(last)
  }

  /** The super types that were not found, in input order. */
  function NotFound(ts: seq<ImplType>): seq<ImplType>
    decreases |ts|
  {
    if ts == [] then []
    else
      var last := ts[|ts| - 1];
      NotFound(ts[..|ts| - 1]) + if last.found then [] else [last]
  }

  /** One commented line per type of `nf`. */
  function NotFoundLines(nf: seq<ImplType>): string
    decreases |nf|
  {
    if nf == [] then "" else NotFoundLines(nf[..|nf| - 1]) + "\n\t// " + nf[|nf| - 1].signature
  }

  /** The closing section that lists the types `nf` that were not found; empty when there
      are none. */
  function NotFoundText(nf: seq<ImplType>): string
  {
    if |nf| > 0 then "\n\n" + NOT_FOUND_HEADER + NotFoundLines(nf) else ""
  }

  /** The closing section of the output for the super types `ts`. */
  function NotFoundSection(ts: seq<ImplType>): string
  {
    NotFoundText(NotFound(ts))
  }

  /** What the filter returns for its argument. */
  function Render(input: FilterInput): string
  {
    match input
    case OtherObject => ""
    case Impl(r) =>
      match r.superTypes
      case None => r.typeName
      case Some(ts) => AppendBlocks(r.typeName, ts) + NotFoundSection(ts)
  }

  /** The body of the method loop for one method: comment it out when implemented, indent
      its continuation lines, and put a tab in front. */
  method RenderMethod(m: ImplMethod) returns (line: string)
    ensures line == MethodLine(m)
  {
    var signature := m.signature;
    if m.implemented {
      signature := "//" + Replace(signature, "\t", "\t//");
    }
    signature := Replace(signature, "\n", "\n\t");
    line := "\t" + signature;
  }

  /** The indexed loop over the methods of one block (`jj`): a line break before every method
      but the first, then the method's line. */
  method AppendMethods(buffer: string, methods: seq<ImplMethod>) returns (out: string)
    ensures out == buffer + MethodsText(methods)
  {
    out := buffer;
    for jj := 0 to |methods|
      invariant out == buffer + Join(MethodLines(methods[..jj]), "\n")
    {
      if jj > 0 {
        out := out + "\n";
      }
      var line := RenderMethod(methods[jj]);
      out := out + line;
      assert MethodLines(methods[..jj + 1]) == MethodLines(methods[..jj]) + [line];
      JoinSnoc(MethodLines(methods[..jj]), line, "\n");
    }
    assert methods[..|methods|] == methods;
  }

  /** The iteration over the types that were not found: one commented line each. */
  method AppendNotFoundLines(buffer: string, notFound: seq<ImplType>) returns (out: string)
    ensures out == buffer + NotFoundLines(notFound)
  {
    out := buffer;
    for kk := 0 to |notFound|
      invariant out == buffer + NotFoundLines(notFound[..kk])
    {
      assert notFound[..kk + 1][..kk] == notFound[..kk];
      out := out + "\n\t// " + notFound[kk].signature;
    }
    assert notFound[..|notFound|] == notFound;
  }

  /** The not-found section (`notFound.size() > 0`): a blank line, the header, then one
      commented line for each type that was not found. */
  method AppendNotFound(buffer: string, notFound: seq<ImplType>) returns (out: string)
    ensures out == buffer + NotFoundText(notFound)
  {
    out := buffer;
    if |notFound| > 0 {
      var heading := "\n\n" + NOT_FOUND_HEADER;
      out := out + heading;
      out := AppendNotFoundLines(out, notFound);
      AppendAssoc(buffer, heading, NotFoundLines(notFound));
    }
  }

  /** The block of one super type that has methods, after a blank line when the buffer is not
      empty. */
  method AppendBlock(buffer: string, t: ImplType) returns (out: string)
    requires HasBlock(t)
    ensures out == (if |buffer| > 0 then buffer + "\n\n" else buffer) + Block(t)
  {
    out := buffer;
    if |out| > 0 {
      out := out + "\n\n";
    }
    out := out + "package " + t.package + ";\n";
    out := out + t.signature + " {\n";
    out := AppendMethods(out, t.methods.value);
    out := out + "\n}";
  }

  /** `ImplFilter.filter`: appends to one buffer while walking the super types and, for each
      block, the methods by index. */
  method Filter(input: FilterInput) returns (text: string)
    ensures text == Render(input)
  {
    if !input.Impl? {
      return "";
    }
    var result := input.result;
    var buffer := result.typeName;
    if result.superTypes.Some? {
      var types := result.superTypes.value;
      var notFound: seq<ImplType> := [];
      for ii := 0 to |types|
        invariant buffer == AppendBlocks(result.typeName, types[..ii])
        invariant notFound == NotFound(types[..ii])
      {
        var t := types[ii];
        assert types[..ii + 1][..ii] == types[..ii];
        if !t.found {
          notFound := notFound + [t];
        }
        if t.methods.None? || |t.methods.value| == 0 {
          continue;
        }
        buffer := AppendBlock(buffer, t);
      }
      assert types[..|types|] == types;
      buffer := AppendNotFound(buffer, notFound);
    }
    text := buffer;
  }

  /** A method's line begins with a tab, and stripping the added indentation and, for an
      implemented method, the added comment marks gives back its signature. */
  lemma MethodLineRecoversSignature(m: ImplMethod)
    ensures |MethodLine(m)| > 0 && MethodLine(m)[0] == '\t'
    ensures var body := Replace(MethodLine(m)[1..], "\n\t", "\n");
            if m.implemented
            then |body| >= 2 && body[..2] == "//" && Replace(body[2..], "\t//", "\t") == m.signature
            else body == m.signature
  {
    var commented := if m.implemented then "//" + Replace(m.signature, "\t", "\t//") else m.signature;
    assert MethodLine(m)[1..] == Replace(commented, "\n", "\n\t");
    assert "\n" == ['\n'] && "\n\t" == ['\n'] + "\t";
    ReplaceRoundTrip(commented, '\n', "\t");
    if m.implemented {
      assert "\t" == ['\t'] && "\t//" == ['\t'] + "//";
      ReplaceRoundTrip(m.signature, '\t', "//");
      assert ("//" + Replace(m.signature, "\t", "\t//"))[2..] == Replace(m.signature, "\t", "\t//");
    }
  }

  /** An implemented method's line starts with `\t//`, and in every method's line each line
      break is followed by a tab. */
  lemma MethodLineShape(m: ImplMethod)
    ensures m.implemented ==> "\t//" <= MethodLine(m)
    ensures forall i :: 1 <= i < |MethodLine(m)| && MethodLine(m)[i] == '\n' ==>
              i + 1 < |MethodLine(m)| && MethodLine(m)[i + 1] == '\t'
  {
    var commented := if m.implemented then "//" + Replace(m.signature, "\t", "\t//") else m.signature;
    ReplaceCharFollowed(commented, '\n', '\t');
    if m.implemented {
      var rest := Replace(m.signature, "\t", "\t//");
      ReplaceCharAppend("//", rest, '\n', "\n\t");
      ReplaceCharAbsent("//", '\n', "\n\t");
    }
  }

  lemma BlocksAppend(a: seq<ImplType>, b: seq<ImplType>)
    ensures Blocks(a + b) == Blocks(a) + Blocks(b)
    decreases |b|
  {
    if b != [] {
      var init := b[..|b| - 1];
      assert (a + b)[..|a + b| - 1] == a + init;
      BlocksAppend(a, init);
    } else {
      assert a + b == a;
    }
  }

  /** Every block is a non-empty text: it begins with `package `. */
  lemma BlocksNonEmpty(ts: seq<ImplType>)
    ensures forall i :: 0 <= i < |Blocks(ts)| ==> |Blocks(ts)[i]| > 0
    decreases |ts|
  {
    if ts != [] {
      BlocksNonEmpty(ts[..|ts| - 1]);
    }
  }

  /** The buffer after the super types is the starting text and the blocks joined by blank
      lines, where an empty starting text contributes no piece (and so no separator). */
  lemma {:induction false} AppendBlocksIsJoin(buffer: string, ts: seq<ImplType>)
    ensures AppendBlocks(buffer, ts) ==
            if buffer == "" then Join(Blocks(ts), "\n\n") else Join([buffer] + Blocks(ts), "\n\n")
    decreases |ts|
  {
    if ts != [] {
      var init := ts[..|ts| - 1];
      var last := ts[|ts| - 1];
      AppendBlocksIsJoin(buffer, init);
      if HasBlock(last) {
        var pieces := if buffer == "" then Blocks(init) else [buffer] + Blocks(init);
        assert Blocks(ts) == Blocks(init) + [Block(last)];
        assert (if buffer == "" then Blocks(ts) else [buffer] + Blocks(ts)) == pieces + [Block(last)];
        BlocksNonEmpty(init);
        assert forall i :: 0 <= i < |pieces| ==> |pieces[i]| > 0 by {
          if buffer != "" {
            assert forall i :: 1 <= i < |pieces| ==> pieces[i] == Blocks(init)[i - 1];
          }
        }
        JoinSnocNonEmpty(pieces, Block(last), "\n\n");
      } else {
        assert Blocks(ts) == Blocks(init);
      }
    } else {
      assert (if buffer == "" then Blocks(ts) else [buffer] + Blocks(ts)) == if buffer == "" then [] else [buffer];
    }
  }

  lemma NotFoundAppend(a: seq<ImplType>, b: seq<ImplType>)
    ensures NotFound(a + b) == NotFound(a) + NotFound(b)
    decreases |b|
  {
    if b != [] {
      var init := b[..|b| - 1];
      assert (a + b)[..|a + b| - 1] == a + init;
      NotFoundAppend(a, init);
    } else {
      assert a + b == a;
    }
  }

  /** The not-found list holds exactly the super types that were not found. */
  lemma {:induction false} NotFoundMembers(ts: seq<ImplType>)
    ensures forall t :: t in NotFound(ts) <==> t in ts && !t.found
    decreases |ts|
  {
    if ts != [] {
      var init := ts[..|ts| - 1];
      NotFoundMembers(init);
      assert ts == init + [ts[|ts| - 1]];
    }
  }

  /** The not-found section is present exactly when some super type was not found, and then it
      is the header followed by one commented line per such type, in input order. */
  lemma NotFoundSectionPresent(ts: seq<ImplType>)
    ensures NotFoundSection(ts) != "" <==> exists i :: 0 <= i < |ts| && !ts[i].found
    ensures NotFoundSection(ts) != "" ==>
              NotFoundSection(ts) == "\n\n" + NOT_FOUND_HEADER + NotFoundLines(NotFound(ts))
  {
    NotFoundMembers(ts);
    if exists i :: 0 <= i < |ts| && !ts[i].found {
      var i :| 0 <= i < |ts| && !ts[i].found;
      assert ts[i] in NotFound(ts);
    }
  }

  /** A super type whose methods are null or empty adds no block, yet is still listed when it
      was not found. */
  lemma NoMethodsNoBlock(ts: seq<ImplType>, t: ImplType, buffer: string)
    requires t.methods.None? || t.methods.value == []
    ensures AppendBlocks(buffer, ts + [t]) == AppendBlocks(buffer, ts)
    ensures NotFound(ts + [t]) == NotFound(ts) + if t.found then [] else [t]
  {
    assert (ts + [t])[..|ts|] == ts;
  }

  /** The layout of the whole output: it starts with the type name, which is all there is when
      the super-type list is null; otherwise the blocks follow, separated by blank lines, and
      then the not-found section. Anything that is not an impl result renders as "". */
  lemma RenderLayout(input: FilterInput)
    ensures input.OtherObject? ==> Render(input) == ""
    ensures input.Impl? ==> input.result.typeName <= Render(input)
    ensures input.Impl? && input.result.superTypes.None? ==> Render(input) == input.result.typeName
    ensures input.Impl? && input.result.superTypes.Some? ==>
              var r := input.result;
              var ts := r.superTypes.value;
              Render(input) ==
                (if r.typeName == "" then Join(Blocks(ts), "\n\n") else Join([r.typeName] + Blocks(ts), "\n\n"))
                + NotFoundSection(ts)
  {
    if input.Impl? && input.result.superTypes.Some? {
      var r := input.result;
      var ts := r.superTypes.value;
      AppendBlocksIsJoin(r.typeName, ts);
      if r.typeName != "" {
        JoinStartsWithFirst([r.typeName] + Blocks(ts), "\n\n");
      }
      assert r.typeName <= AppendBlocks(r.typeName, ts);
    }
  }
}
