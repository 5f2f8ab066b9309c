/** Sets that a loop works off one element at a time. */
module WorkSets {
  /** `seen` is done, `todo` is left. */
  ghost predicate Split<T(!new)>(whole: set<T>, seen: set<T>, todo: set<T>) { seen !! todo && seen + todo == whole }

  lemma TakeOne<T(!new)>(whole: set<T>, seen: set<T>, todo: set<T>, x: T)
    requires Split(whole, seen, todo) && x in todo
    ensures Split(whole, seen + {x}, todo - {x}) && x in whole && x !in seen && |seen + {x}| == |seen| + 1
  {
  }

  lemma AllLeft<T(!new)>(whole: set<T>)
    ensures Split(whole, {}, whole)
  {
  }

  lemma NoneLeft<T(!new)>(whole: set<T>, seen: set<T>)
    requires Split(whole, seen, {})
    ensures seen == whole
  {
  }
}
