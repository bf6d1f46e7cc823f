/**
 * The calls the server makes to the outside world, recorded as values
 * instead of performed. Both calls swallow their own exceptions, so an
 * effect never feeds anything back into the server's state.
 */
module Effects {

  datatype Effect =
      /** `update_client_ip_via_lambda(client_ip, connectivity, domain_name)`:
          one POST to the DNS-update endpoint. */
    | Notify(clientIp: string, connectivity: string, domain: string)
      /** `replace_instance_ip()`: one call to the cloud API that replaces the
          instance's public address (fixed region and instance name). */
    | ReplaceIp
}
