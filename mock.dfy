/** internal/storage/mock.go: the in-memory bucket with per-key error
    injection that stands for the object store throughout the model. Every
    operation except Ping logs one "Op:key" entry in `calls`. */
module Mock {
  import opened Wrappers
  import opened Bytes
  import opened FileSystem
  import Storage

  class MockBackend {
    var objects: map<string, Bytes>
    var calls: seq<string>
    var uploadErrors: map<string, string>
    var downloadErrors: map<string, string>
    var deleteErrors: map<string, string>

    /** NewMockBackend: no objects, no calls, no injected errors. */
    constructor ()
      ensures objects == map[] && calls == []
      ensures uploadErrors == map[] && downloadErrors == map[] && deleteErrors == map[]
    {
      objects, calls := map[], [];
      uploadErrors, downloadErrors, deleteErrors := map[], map[], map[];
    }

    /** Ping always succeeds and logs nothing. */
    method Ping() returns (err: Option<string>)
      ensures err == None
    {
      err := None;
    }

    /** UploadFile: an injected error wins; otherwise the local file's bytes
        become the object, or the read error is returned. */
    method UploadFile(key: string, localPath: string, disk: Disk) returns (err: Option<string>)
      modifies this`objects, this`calls
      ensures calls == old(calls) + ["UploadFile:" + key]
      ensures key in uploadErrors ==> err == Some(uploadErrors[key]) && objects == old(objects)
      ensures key !in uploadErrors && disk.ReadFile(localPath).Err? ==>
        err == Some(disk.ReadFile(localPath).msg) && objects == old(objects)
      ensures key !in uploadErrors && disk.ReadFile(localPath).Ok? ==>
        err == None && objects == old(objects)[key := disk.files[localPath].data]
    {
      calls := calls + ["UploadFile:" + key];
      if key in uploadErrors {
        return Some(uploadErrors[key]);
      }
      match disk.ReadFile(localPath)
      case Err(e) => err := Some(e);
      case Ok(data) =>
        objects := objects[key := data];
        err := None;
    }

    /** UploadBytes: an injected error wins; otherwise `data` becomes the
        object and no other object changes. */
    method UploadBytes(key: string, data: Bytes) returns (err: Option<string>)
      modifies this`objects, this`calls
      ensures calls == old(calls) + ["UploadBytes:" + key]
      ensures key in uploadErrors ==> err == Some(uploadErrors[key]) && objects == old(objects)
      ensures key !in uploadErrors ==> err == None && objects == old(objects)[key := data]
    {
      calls := calls + ["UploadBytes:" + key];
      if key in uploadErrors {
        return Some(uploadErrors[key]);
      }
      objects := objects[key := data];
      err := None;
    }

    /** DownloadBytes: an injected error first, then not-found, else the
        stored bytes. */
    method DownloadBytes(key: string) returns (r: Result<Bytes>)
      modifies this`calls
      ensures calls == old(calls) + ["DownloadBytes:" + key]
      ensures key in downloadErrors ==> r == Err(downloadErrors[key])
      ensures key !in downloadErrors && key !in objects ==> r == Err("object not found: " + key)
      ensures key !in downloadErrors && key in objects ==> r == Ok(objects[key])
    {
      calls := calls + ["DownloadBytes:" + key];
      if key in downloadErrors {
        return Err(downloadErrors[key]);
      }
      if key !in objects {
        return Err("object not found: " + key);
      }
      r := Ok(objects[key]);
    }

    /** DownloadFile: the same precedence as DownloadBytes; on success the
        stored bytes are written to the local path (which may still fail). */
    method DownloadFile(key: string, localPath: string, disk: Disk) returns (err: Option<string>)
      modifies this`calls, disk`files
      ensures calls == old(calls) + ["DownloadFile:" + key]
      ensures key in downloadErrors ==> err == Some(downloadErrors[key]) && disk.files == old(disk.files)
      ensures key !in downloadErrors && key !in objects ==>
        err == Some("object not found: " + key) && disk.files == old(disk.files)
      ensures key !in downloadErrors && key in objects ==>
        (err.None? <==> localPath !in disk.writeFails)
        && (err.Some? ==> err.value == "write " + localPath + ": permission denied")
      ensures key !in downloadErrors && key in objects && err.None? ==>
        disk.files == old(disk.files)[localPath := DiskFile(objects[key], disk.now)]
      ensures err.Some? ==> disk.files == old(disk.files)
    {
      calls := calls + ["DownloadFile:" + key];
      if key in downloadErrors {
        return Some(downloadErrors[key]);
      }
      if key !in objects {
        return Some("object not found: " + key);
      }
      err := disk.WriteFile(localPath, objects[key]);
    }

    /** DeleteObject: removes the key (an absent key succeeds) unless an
        error is injected for it. */
    method DeleteObject(key: string) returns (err: Option<string>)
      modifies this`objects, this`calls
      ensures calls == old(calls) + ["DeleteObject:" + key]
      ensures key in deleteErrors ==> err == Some(deleteErrors[key]) && objects == old(objects)
      ensures key !in deleteErrors ==> err == None && objects == old(objects) - {key}
    {
      calls := calls + ["DeleteObject:" + key];
      if key in deleteErrors {
        return Some(deleteErrors[key]);
      }
      objects := objects - {key};
      err := None;
    }

    /** DownloadManifest is DownloadBytes at the manifest key. */
    method DownloadManifest() returns (r: Result<Bytes>)
      modifies this`calls
      ensures calls == old(calls) + ["DownloadBytes:" + Storage.ManifestKey]
      ensures Storage.ManifestKey in downloadErrors ==> r == Err(downloadErrors[Storage.ManifestKey])
      ensures Storage.ManifestKey !in downloadErrors && Storage.ManifestKey !in objects ==>
        r == Err("object not found: " + Storage.ManifestKey)
      ensures Storage.ManifestKey !in downloadErrors && Storage.ManifestKey in objects ==>
        r == Ok(objects[Storage.ManifestKey])
    {
      r := DownloadBytes(Storage.ManifestKey);
    }

    /** UploadManifest is UploadBytes at the manifest key. */
    method UploadManifest(data: Bytes) returns (err: Option<string>)
      modifies this`objects, this`calls
      ensures calls == old(calls) + ["UploadBytes:" + Storage.ManifestKey]
      ensures Storage.ManifestKey in uploadErrors ==>
        err == Some(uploadErrors[Storage.ManifestKey]) && objects == old(objects)
      ensures Storage.ManifestKey !in uploadErrors ==>
        err == None && objects == old(objects)[Storage.ManifestKey := data]
    {
      err := UploadBytes(Storage.ManifestKey, data);
    }
  }
}
