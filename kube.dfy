/** The Kubernetes API values the browser passes around: group versions,
    group-version-resources and -kinds, discovered resource lists, and the
    errors its collaborators report. */
module Kube {

  datatype Option<T> = None | Some(value: T)

  /** Errors. A collaborator's failure is opaque; the program itself only
      wraps one (`fmt.Errorf("...: %w", err)`) or makes one up when a
      schema is missing. */
  datatype Error =
    | Failure(message: string)
    | Wrapped(context: string, cause: Error)
    | NoSchemaFound(gvk: GVK)

  datatype Result<T> = Ok(value: T) | Err(error: Error)

  datatype GroupVersion = GroupVersion(group: string, version: string)

  datatype GVR = GVR(group: string, version: string, resource: string)

  datatype GVK = GVK(group: string, version: string, kind: string)

  /** schema.GroupVersion.WithResource. */
  function WithResource(gv: GroupVersion, resource: string): GVR
  {
    GVR(gv.group, gv.version, resource)
  }

  /** metav1.APIResource, restricted to the fields the program reads. */
  datatype APIResource = APIResource(name: string, singularName: string, kind: string, shortNames: seq<string>)

  /** metav1.APIResourceList: one group version and its resources. */
  datatype APIResourceList = APIResourceList(groupVersion: string, resources: seq<APIResource>)
}
