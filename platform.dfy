/**
 * The WordPress and WooCommerce helpers the engine calls but whose own
 * behaviour is outside the model, taken as given functions.
 */
module Platform {

  datatype Platform = Platform(
    /** `sanitize_text_field`. */
    sanitizeText: string -> string,
    /** `sanitize_title`. */
    sanitizeTitle: string -> string,
    /** `wc_attribute_taxonomy_name`: the `pa_` taxonomy of an attribute slug. */
    taxonomyName: string -> string,
    /** PHP's conversion of a float price to a string (`(string) $price`). */
    priceText: real -> string
  )
}
