// Shared vocabulary: optional values, exceptions and class tests.

module Common {

  datatype Option<+T> = None | Some(value: T)

  // An exception, with the names of all classes it is an instance of.
  datatype Exn = Exn(classes: set<string>, message: string)

  predicate InstanceOfAny(e: Exn, classes: seq<string>) {
    exists i :: 0 <= i < |classes| && classes[i] in e.classes
  }

  ghost predicate OfClass(e: Exn, classes: seq<string>) {
    exists c <- classes :: c in e.classes
  }

  lemma InstanceExactly(e: Exn, classes: seq<string>)
    ensures InstanceOfAny(e, classes) <==> OfClass(e, classes)
  {
    if OfClass(e, classes) {
      var c :| c in classes && c in e.classes;
      var i :| 0 <= i < |classes| && classes[i] == c;
    }
  }
}
