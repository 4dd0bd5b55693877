/**
 What the planner knows of one destination database (option/option.go): which tables it holds
 and how source schemas are renamed.
 */
module Destination {
  import opened Strings

  /** `tables` and `roots` are the two inventories taken from the database, by qualified name. */
  datatype Inventory = Inventory(schemaMap: map<string, string>, tables: set<string>, roots: set<string>)

  /** The schema a source schema is copied to; the names of tables never change. */
  function Translate(inv: Inventory, schema: string): (r: string)
    ensures schema !in inv.schemaMap ==> r == schema
  {
    if schema in inv.schemaMap && inv.schemaMap[schema] != "" then inv.schemaMap[schema] else schema
  }

  /** `schema` is copied to `d`: the schema it is mapped to, or itself where it is mapped to nothing. */
  predicate CopiedTo(inv: Inventory, schema: string, d: string) {
    if schema in inv.schemaMap && inv.schemaMap[schema] != "" then d == inv.schemaMap[schema] else d == schema
  }

  /** A table of that name is among the tables or the partition roots of the destination. */
  predicate IsThere(inv: Inventory, schema: string, name: string) {
    schema + "." + name in inv.tables + inv.roots
  }

  lemma ExistingIsThere(inv: Inventory, schema: string, d: string, name: string)
    requires CopiedTo(inv, schema, d)
    ensures Existing(inv, Translate(inv, schema), name) <==> IsThere(inv, d, name)
    ensures Translate(inv, schema) == d
  {
  }

  predicate Existing(inv: Inventory, schema: string, name: string) {
    Qualify(schema, name) in inv.tables || Qualify(schema, name) in inv.roots
  }
}
