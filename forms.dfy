/** A spinner selection: its position in the option list (0 is the placeholder) and the item there. */
module Forms {
  datatype Selection<T> = Selection(position: nat, item: T)
}
