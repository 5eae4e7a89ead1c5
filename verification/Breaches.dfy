// BreachDetail of models.py.
module Breaches {

  datatype Breach = Breach(rule: string, field: string, message: string)
}
