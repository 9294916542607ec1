/** Account names, shared by the ledgers. */
module Names {
  datatype Account = Account(name: nat)
}
