/**
 * What the management-instrumentation provider hands the console tool,
 * fixed in advance as a value: the namespace tree, the classes of each
 * namespace, their instances and properties, and the points at which a
 * query throws.  Property values are already rendered as text.
 */
module Provider {

  datatype Option<+T> = None | Some(value: T)

  /** One property of one instance: its name and its rendered value. */
  datatype Property = Property(name: string, value: string)

  /** One instance, with its properties in enumeration order. */
  datatype Instance = Instance(properties: seq<Property>)

  /** Instance enumeration threw after yielding `readBefore` of the next
      instance's properties (none if it threw between instances). */
  datatype Failure = Failure(readBefore: seq<Property>, message: string)

  /** A class as the class query yields it: its name, the instances enumerated
      before any failure, the failure if one happens, and the stopwatch reading
      for the enumeration, already rendered in milliseconds. */
  datatype WmiClass = WmiClass(name: string, instances: seq<Instance>, failure: Option<Failure>, elapsedMs: string)

  /** A namespace as seen through its parent's `__namespace` query.
      `Unreachable`: connecting throws with `message`.
      `Reachable`: the class query yields `classes` and then throws
      `classQueryError` if present (a class whose name cannot be read counts as
      such a failure); otherwise the sub-namespace query yields `children` and
      then throws `childQueryError` if present. */
  datatype Namespace =
    | Unreachable(name: string, message: string)
    | Reachable(name: string, classes: seq<WmiClass>, classQueryError: Option<string>,
                children: seq<Namespace>, childQueryError: Option<string>)
}
