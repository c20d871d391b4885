/** The order statuses the status form offers. */
module Status {
  import opened Schema

  /** The options of the status combobox, in display order. */
  const StatusOptions: seq<string> := ["Pendente", "Em Produção", "Concluído", "Entregue", "Cancelado"]

  /** Every order's status is one the form offers. */
  ghost predicate StatusesValid(db: Db) {
    forall id :: id in db.orders ==> db.orders[id].status in StatusOptions
  }
}
