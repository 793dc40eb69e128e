/** The records the parser produces and the configuration it reads. */
module Records {
  import opened Wrappers

  /**
   * An extracted datum with a heuristic confidence in [0, 1] and a note that
   * explains an absence or an assumption.
   */
  datatype Field<T> = Field(value: Option<T>, confidence: real, notes: string)

  /** One sighting of a product in the body: its name, the quantity if one was found, a confidence and a note. */
  datatype Mention = Mention(name: string, quantity: Option<nat>, confidence: real, note: string)

  /** A requested product, after all its mentions are merged. */
  datatype Item = Item(productName: Field<string>, quantity: Field<nat>, unit: Field<string>)

  /** The configuration keys the parser reads: `currency` and `default_unit`; either may be absent. */
  datatype Config = Config(currency: Option<string>, defaultUnit: Option<string>)
}
