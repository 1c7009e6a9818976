/** The facing direction shared by tanks and bullets. */
module Directions {

  datatype Direction = Up | Down | Left | Right
}
