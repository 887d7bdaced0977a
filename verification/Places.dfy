/** Where things stand inside a value, and which come first. */
module Places {
  import opened Order
  import opened Values

  /** One step into a value: to a member of an object, or to an item of a list or a part of a concatenation. */
  datatype Step = Key(key: string) | Index(index: nat)

  type Path = seq<Step>

  predicate HasStep(v: Value, step: Step) {
    match step
    case Key(key) => v.Obj? && key in v.members
    case Index(i) => (v.Arr? && i < |v.items|) || (v.Concat? && i < |v.parts|)
  }

  function Into(v: Value, step: Step): Value
    requires HasStep(v, step)
  {
    match step
    case Key(key) => v.members[key]
    case Index(i) => if v.Arr? then v.items[i] else v.parts[i]
  }

  /** Whether some steps into v end at w. */
  predicate Leads(v: Value, path: Path, w: Value)
    decreases |path|
  {
    if path == [] then w == v else HasStep(v, path[0]) && Leads(Into(v, path[0]), path[1..], w)
  }

  predicate StepBefore(a: Step, b: Step) {
    match (a, b)
    case (Key(k), Key(l)) => Less(k, l)
    case (Index(i), Index(j)) => i < j
    case _ => false
  }

  /** Members come in the order of their keys, items and parts in theirs, and a value before what is inside it. */
  predicate Before(a: Path, b: Path) {
    if b == [] then false
    else if a == [] then true
    else if a[0] == b[0] then Before(a[1..], b[1..])
    else StepBefore(a[0], b[0])
  }

  /** What stands at the end of a path is one value. */
  lemma {:induction false} LeadsToOne(v: Value, path: Path, w: Value, x: Value)
    requires Leads(v, path, w) && Leads(v, path, x)
    ensures w == x
    decreases |path|
  {
    if path != [] {
      LeadsToOne(Into(v, path[0]), path[1..], w, x);
    }
  }
}
