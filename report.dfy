/**
 * The report section the console tool prints for one class that passed the
 * exclusion filter: the header that PrintHeader writes, the `Properties:`
 * label, one line per property of every instance with a blank line after
 * each instance, at most one instance-enumeration error line, and the
 * separator, property-count and timing lines.
 */
module Report {
  import opened Text
  import opened Provider

  const RuleWidth: nat := 40

  /** `new string('=', 40)`, the rule around a section header. */
  const EqualsRule: string := Repeat('=', RuleWidth)

  /** `new string('-', 40)`, the separator after the property lines. */
  const DashRule: string := Repeat('-', RuleWidth)

  /** A line of exactly `RuleWidth` copies of `ch`. */
  predicate IsRule(line: string, ch: char)
  {
    |line| == RuleWidth && forall k :: 0 <= k < |line| ==> line[k] == ch
  }

  /** PrintHeader: three blank lines, a rule, `Class: <title>`, a rule. */
  function Header(title: string): seq<string>
  {
    ["", "", "", EqualsRule, "Class: " + title, EqualsRule]
  }

  function PropertyLine(p: Property): string
  {
    "  " + p.name + ": " + p.value
  }

  function PropertyLines(props: seq<Property>): seq<string>
  {
    seq(|props|, k requires 0 <= k < |props| => PropertyLine(props[k]))
  }

  /** What one fully enumerated instance prints: its property lines, then one blank line. */
  function InstanceBlock(inst: Instance): seq<string>
  {
    PropertyLines(inst.properties) + [""]
  }

  function InstancesLines(insts: seq<Instance>): seq<string>
  {
    if insts == [] then []
    else InstancesLines(insts[..|insts| - 1]) + InstanceBlock(insts[|insts| - 1])
  }

  /** The number of properties across a sequence of instances. */
  function PropertyCount(insts: seq<Instance>): nat
  {
    if insts == [] then 0
    else PropertyCount(insts[..|insts| - 1]) + |insts[|insts| - 1].properties|
  }

  function InstanceError(message: string): string
  {
    InstanceErrorPrefix + message
  }

  /** What a failed enumeration adds after the complete instances. */
  function FailureLines(failure: Option<Failure>): seq<string>
  {
    match failure
    case None => []
    case Some(f) => PropertyLines(f.readBefore) + [InstanceError(f.message)]
  }

  /** The number of property lines the class prints, counting those read before a failure. */
  function PropertiesRead(c: WmiClass): nat
  {
    PropertyCount(c.instances) + (if c.failure.Some? then |c.failure.value.readBefore| else 0)
  }

  function CountLine(className: string, lines: int): string
  {
    "Lines printed for " + className + " : " + IntToString(lines)
  }

  function TimeLine(className: string, elapsedMs: string): string
  {
    "Time Taken for " + className + " : " + elapsedMs + " ms"
  }

  /** The lines between `Properties:` and the separator. */
  function Body(c: WmiClass): seq<string>
  {
    InstancesLines(c.instances) + FailureLines(c.failure)
  }

  /** The whole section for class `c` of the namespace at `namespacePath`.
      The count is that of a C# `int` incremented once per property line. */
  function Section(namespacePath: string, c: WmiClass): seq<string>
  {
    Header(namespacePath + ":" + c.name) + ["Properties:"] + Body(c)
      + [DashRule, CountLine(c.name, Wrap32(PropertiesRead(c))), TimeLine(c.name, c.elapsedMs)]
  }

  /** The number of lines in `lines` that satisfy `keep`. */
  function CountWhere(lines: seq<string>, keep: string -> bool): nat
  {
    if lines == [] then 0
    else CountWhere(lines[..|lines| - 1], keep) + (if keep(lines[|lines| - 1]) then 1 else 0)
  }

  predicate IsBlank(line: string)
  {
    line == ""
  }

  const InstanceErrorPrefix: string := "  Error accessing instances: "

  predicate IsInstanceError(line: string)
  {
    IsPrefix(InstanceErrorPrefix, line)
  }

  /** WMI property names are identifiers; in particular they hold no space. */
  predicate PlainName(name: string)
  {
    ' ' !in name
  }

  /** Every property the class prints has a plain name. */
  predicate PlainPropertyNames(c: WmiClass)
  {
    && (forall i, k | 0 <= i < |c.instances| && 0 <= k < |c.instances[i].properties| ::
          PlainName(c.instances[i].properties[k].name))
    && (c.failure.Some? ==> forall k | 0 <= k < |c.failure.value.readBefore| ::
          PlainName(c.failure.value.readBefore[k].name))
  }

  // ---------------------------------------------------------------------
  // The imperative part: the inner `foreach` over properties and the
  // per-class block of SearchNamespace.

  /** The inner loop: print each property and increment the `int` counter. */
  method PrintProperties(out: seq<string>, lines: int, props: seq<Property>)
    returns (out': seq<string>, lines': int)
    ensures out' == out + PropertyLines(props)
    ensures lines' == Wrap32(lines + |props|)
  {
    out', lines' := out, Wrap32(lines);
    ghost var exact := lines;
    var j := 0;
    while j < |props|
      invariant 0 <= j <= |props|
      invariant out' == out + PropertyLines(props[..j])
      invariant exact == lines + j && lines' == Wrap32(exact)
    {
      assert PropertyLines(props[..j + 1]) == PropertyLines(props[..j]) + [PropertyLine(props[j])];
      out' := out' + [PropertyLine(props[j])];
      WrapAdd(exact, 1);
      lines' := Wrap32(lines' + 1);
      exact := exact + 1;
      j := j + 1;
    }
    assert props[..j] == props;
  }

  /** The `foreach` over the instances of a class: print each instance's
      properties, then a blank line. */
  method PrintInstances(out: seq<string>, lines: int, insts: seq<Instance>)
    returns (out': seq<string>, lines': int)
    ensures out' == out + InstancesLines(insts)
    ensures lines' == Wrap32(lines + PropertyCount(insts))
  {
    out', lines' := out, Wrap32(lines);
    ghost var exact := lines;
    var i := 0;
    while i < |insts|
      invariant 0 <= i <= |insts|
      invariant out' == out + InstancesLines(insts[..i])
      invariant exact == lines + PropertyCount(insts[..i])
      invariant lines' == Wrap32(exact)
    {
      var inst := insts[i];
      assert InstancesLines(insts[..i + 1]) == InstancesLines(insts[..i]) + InstanceBlock(inst)
          && PropertyCount(insts[..i + 1]) == PropertyCount(insts[..i]) + |inst.properties| by {
        assert insts[..i + 1][..i] == insts[..i];
      }
      WrapAdd(exact, |inst.properties|);
      out', lines' := PrintProperties(out', lines', inst.properties);
      out' := out' + [""];
      exact := exact + |inst.properties|;
      i := i + 1;
    }
    assert insts[..i] == insts;
  }

  /** The block of SearchNamespace for one retained class: header, instances
      and properties, the error line if enumeration throws, then separator,
      count and timing lines. */
  method ReportClass(namespacePath: string, c: WmiClass) returns (out: seq<string>)
    ensures out == Section(namespacePath, c)
  {
    var lines: int;
    out := Header(namespacePath + ":" + c.name) + ["Properties:"];
    ghost var top := out;
    out, lines := PrintInstances(out, 0, c.instances);
    if c.failure.Some? {
      var f := c.failure.value;
      WrapAdd(PropertyCount(c.instances), |f.readBefore|);
      out, lines := PrintProperties(out, lines, f.readBefore);
      out := out + [InstanceError(f.message)];
    }
    assert out == top + Body(c);
    assert lines == Wrap32(PropertiesRead(c));
    out := out + [DashRule, CountLine(c.name, lines), TimeLine(c.name, c.elapsedMs)];
  }

  // ---------------------------------------------------------------------
  // Properties of a section

  /** PrintHeader writes six lines: three blank lines, a 40-character `=`
      rule, `Class: <title>` and another `=` rule. */
  lemma HeaderLayout(title: string)
    ensures var h := Header(title);
      && |h| == 6
      && h[0] == h[1] == h[2] == ""
      && IsRule(h[3], '=') && IsRule(h[5], '=')
      && h[4] == "Class: " + title
  {
  }

  /** The fixed frame of every section: three blank lines, a 40-character `=`
      rule, `Class: <namespace path>:<class name>`, another `=` rule and
      `Properties:`; then the body; then a 40-character `-` rule, the count
      line and the timing line. */
  lemma SectionLayout(namespacePath: string, c: WmiClass)
    ensures var s := Section(namespacePath, c);
      && |s| == |Body(c)| + 10
      && s[0] == s[1] == s[2] == ""
      && IsRule(s[3], '=') && IsRule(s[5], '=')
      && s[4] == "Class: " + namespacePath + ":" + c.name
      && s[6] == "Properties:"
      && s[7..|s| - 3] == Body(c)
      && IsRule(s[|s| - 3], '-')
      && s[|s| - 2] == "Lines printed for " + c.name + " : " + IntToString(Wrap32(PropertiesRead(c)))
      && s[|s| - 1] == "Time Taken for " + c.name + " : " + c.elapsedMs + " ms"
  {
    var s := Section(namespacePath, c);
    assert s[7..|s| - 3] == Body(c);
  }

  lemma {:induction false} CountWhereAppend(a: seq<string>, b: seq<string>, keep: string -> bool)
    ensures CountWhere(a + b, keep) == CountWhere(a, keep) + CountWhere(b, keep)
    decreases |b|
  {
    if b != [] {
      assert (a + b)[..|a + b| - 1] == a + b[..|b| - 1];
      CountWhereAppend(a, b[..|b| - 1], keep);
    } else {
      assert a + b == a;
    }
  }

  lemma CountWhereSingle(line: string, keep: string -> bool)
    ensures CountWhere([line], keep) == if keep(line) then 1 else 0
  {
    assert [line][..0] == [];
  }
  lemma {:induction false} InstancesLinesAppend(a: seq<Instance>, b: seq<Instance>)
    ensures InstancesLines(a + b) == InstancesLines(a) + InstancesLines(b)
    ensures PropertyCount(a + b) == PropertyCount(a) + PropertyCount(b)
    decreases |b|
  {
    if b != [] {
      assert (a + b)[..|a + b| - 1] == a + b[..|b| - 1];
      InstancesLinesAppend(a, b[..|b| - 1]);
    } else {
      assert a + b == a;
    }
  }

  /** Property lines that `keep` rejects contribute nothing to its count. */
  lemma {:induction false} PropertyLinesUncounted(props: seq<Property>, keep: string -> bool)
    requires forall k | 0 <= k < |props| :: !keep(PropertyLine(props[k]))
    ensures |PropertyLines(props)| == |props|
    ensures CountWhere(PropertyLines(props), keep) == 0
    decreases |props|
  {
    if props != [] {
      var n := |props| - 1;
      assert PropertyLines(props)[..n] == PropertyLines(props[..n]);
      PropertyLinesUncounted(props[..n], keep);
    }
  }

  /** No property line is blank. */
  lemma PropertyLinesNotBlank(props: seq<Property>)
    ensures |PropertyLines(props)| == |props|
    ensures CountWhere(PropertyLines(props), IsBlank) == 0
  {
    forall k | 0 <= k < |props| ensures !IsBlank(PropertyLine(props[k])) {
      assert PropertyLine(props[k])[0] == ' ';
    }
    PropertyLinesUncounted(props, IsBlank);
  }

  /** A property with a plain name never prints a line that reads as the
      instance-error line: the `:` after the name, or a space inside it,
      would have to stand where `Error accessing` has a letter or a space. */
  lemma PlainPropertyLineIsNoError(p: Property)
    requires PlainName(p.name)
    ensures !IsInstanceError(PropertyLine(p))
  {
    var line := PropertyLine(p);
    if |p.name| <= 5 {
      assert line[2 + |p.name|] == ':';
      assert InstanceErrorPrefix[2 + |p.name|] != ':';
    } else {
      assert line[7] == p.name[5];
      assert InstanceErrorPrefix[7] == ' ';
    }
  }

  /** Each fully enumerated instance contributes its property lines and exactly
      one blank line. */
  lemma {:induction false} InstancesShape(insts: seq<Instance>)
    ensures |InstancesLines(insts)| == PropertyCount(insts) + |insts|
    ensures CountWhere(InstancesLines(insts), IsBlank) == |insts|
    decreases |insts|
  {
    if insts != [] {
      var n := |insts| - 1;
      InstancesShape(insts[..n]);
      PropertyLinesNotBlank(insts[n].properties);
      CountWhereAppend(PropertyLines(insts[n].properties), [""], IsBlank);
      CountWhereSingle("", IsBlank);
      CountWhereAppend(InstancesLines(insts[..n]), InstanceBlock(insts[n]), IsBlank);
    }
  }

  /** The lines of instance `i` are contiguous: the lines of every instance
      before it, then its block, then the lines of every instance after it;
      the block is its property lines in order followed by one blank line. */
  lemma InstanceBlockAt(insts: seq<Instance>, i: nat)
    requires i < |insts|
    ensures InstancesLines(insts)
         == InstancesLines(insts[..i]) + InstanceBlock(insts[i]) + InstancesLines(insts[i + 1..])
    ensures var props, block := insts[i].properties, InstanceBlock(insts[i]);
      && |block| == |props| + 1
      && (forall k | 0 <= k < |props| :: block[k] == "  " + props[k].name + ": " + props[k].value)
      && block[|props|] == ""
  {
    var head, tail := insts[..i + 1], insts[i + 1..];
    assert InstancesLines(insts) == InstancesLines(head) + InstancesLines(tail) by {
      assert insts == head + tail;
      InstancesLinesAppend(head, tail);
    }
    assert InstancesLines(head) == InstancesLines(insts[..i]) + InstanceBlock(insts[i]) by {
      assert head[..i] == insts[..i];
    }
  }

  /** The printed count is the number of property lines in the body: its lines
      that are neither blank nor the instance-error line.  While that number
      fits in an `int` the count line shows it in decimal. */
  lemma CountMatchesPropertyLines(namespacePath: string, c: WmiClass)
    ensures var s := Section(namespacePath, c);
      var body := s[7..|s| - 3];
      var shown := |body| - CountWhere(body, IsBlank) - (if c.failure.Some? then 1 else 0);
      && shown == PropertiesRead(c)
      && (shown <= Int32Max ==> s[|s| - 2] == "Lines printed for " + c.name + " : " + NatToString(shown))
  {
    SectionLayout(namespacePath, c);
    InstancesShape(c.instances);
    CountWhereAppend(InstancesLines(c.instances), FailureLines(c.failure), IsBlank);
    if c.failure.Some? {
      var f := c.failure.value;
      PropertyLinesNotBlank(f.readBefore);
      CountWhereAppend(PropertyLines(f.readBefore), [InstanceError(f.message)], IsBlank);
      CountWhereSingle(InstanceError(f.message), IsBlank);
    }
  }

  /** No complete instance prints an instance-error line when its property names are plain. */
  lemma {:induction false} InstancesHaveNoErrorLine(insts: seq<Instance>)
    requires forall i, k | 0 <= i < |insts| && 0 <= k < |insts[i].properties| ::
      PlainName(insts[i].properties[k].name)
    ensures CountWhere(InstancesLines(insts), IsInstanceError) == 0
    decreases |insts|
  {
    if insts != [] {
      var n := |insts| - 1;
      InstancesHaveNoErrorLine(insts[..n]);
      var props := insts[n].properties;
      forall k | 0 <= k < |props| ensures !IsInstanceError(PropertyLine(props[k])) {
        PlainPropertyLineIsNoError(props[k]);
      }
      PropertyLinesUncounted(props, IsInstanceError);
      CountWhereAppend(PropertyLines(props), [""], IsInstanceError);
      CountWhereSingle("", IsInstanceError);
      CountWhereAppend(InstancesLines(insts[..n]), InstanceBlock(insts[n]), IsInstanceError);
    }
  }

  /** A section holds exactly one instance-error line when enumeration throws
      and none when it does not; when it throws, the error line is the last
      line of the body, right before the separator. */
  lemma ErrorLineExactlyOnFailure(namespacePath: string, c: WmiClass)
    requires PlainPropertyNames(c)
    ensures var s := Section(namespacePath, c);
      var body := s[7..|s| - 3];
      && CountWhere(body, IsInstanceError) == (if c.failure.Some? then 1 else 0)
      && (c.failure.Some? ==> s[|s| - 4] == "  Error accessing instances: " + c.failure.value.message)
  {
    SectionLayout(namespacePath, c);
    InstancesHaveNoErrorLine(c.instances);
    CountWhereAppend(InstancesLines(c.instances), FailureLines(c.failure), IsInstanceError);
    if c.failure.Some? {
      var f := c.failure.value;
      forall k | 0 <= k < |f.readBefore| ensures !IsInstanceError(PropertyLine(f.readBefore[k])) {
        PlainPropertyLineIsNoError(f.readBefore[k]);
      }
      PropertyLinesUncounted(f.readBefore, IsInstanceError);
      CountWhereAppend(PropertyLines(f.readBefore), [InstanceError(f.message)], IsInstanceError);
      CountWhereSingle(InstanceError(f.message), IsInstanceError);
      assert IsInstanceError(InstanceError(f.message));
    }
  }
}
