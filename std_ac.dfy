/** The library's protocol-independent A/C vocabulary (`stdAc::opmode_t` and
    `stdAc::fanspeed_t`), which the Corona conversions translate to and from.
    The enumerations are declared in the library's common header, which is
    not part of this model; only their constructor names matter here. */
module StdAc {

  datatype OpMode = Off | Auto | Cool | Heat | Dry | Fan

  datatype FanSpeed = AutoSpeed | Min | Low | Medium | High | Max
}
