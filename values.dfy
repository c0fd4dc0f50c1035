/** The payloads that flow through a signal graph.
    The engine never looks inside a payload except to compare two of them
    (DropRepeats) and to pair one with a timestep (Timestamp), so a small
    datatype with numbers and pairs stands for every Elm value. */
module Values {

  datatype Value = Num(n: int) | Tuple2(fst: Value, snd: Value)

  /** `null` or one value, as Merge's pending `next` slot holds it. */
  datatype Option<T> = None | Some(value: T)

}
